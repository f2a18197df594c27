/** Traces at which the barrier edges of src/Analysis/HappensBeforeGraph.cpp:170-187 order what runs side by side. */
module BarrierExamples {
  import opened Options
  import opened Traces
  import opened Walks
  import opened HappensBefore
  import opened HappensBeforeGraphs
  import opened Interleavings

  // ---- A barrier met twice ------------------------------------------------------------------

  function OneTeam(): Teams {
    _ => 0
  }

  /** Two threads that meet one barrier twice, with a write in between. */
  function TwiceBarrier(): Program {
    var body := [Barrier(0), Write([7]), Barrier(0)];
    Program([Thread(None, [Fork(0, 1), Fork(0, 2)]), Thread(Some(Pid(0, 0)), body), Thread(Some(Pid(0, 1)), body)], map[])
  }

  ghost function TwiceRun(): seq<State> {
    var none := [multiset{}, multiset{}, multiset{}];
    [State([0, 0, 0], {0}, none), State([1, 0, 0], {0, 1}, none), State([2, 0, 0], {0, 1, 2}, none), State([2, 1, 1], {0, 1, 2}, none)]
  }

  lemma TwiceRunIsRun()
    ensures IsRun(TwiceBarrier(), OneTeam(), TwiceRun())
  {
    TwiceFirstFork();
    TwiceSecondFork();
    TwiceStep();
    hide Step, TwiceBarrier;
    var p, run := TwiceBarrier(), TwiceRun();
    forall i | 0 < i < |run|
      ensures Follows(p, OneTeam(), run[i - 1], run[i])
    {
      assert i == 1 || i == 2 || i == 3;
    }
  }

  lemma TwiceFirstFork()
    ensures TwiceRun()[0] == Start(TwiceBarrier())
    ensures Step(TwiceBarrier(), OneTeam(), TwiceRun()[0], Pid(0, 0), TwiceRun()[1])
  {
  }

  lemma TwiceSecondFork()
    ensures Step(TwiceBarrier(), OneTeam(), TwiceRun()[1], Pid(0, 1), TwiceRun()[2])
  {
  }

  lemma TwiceStep()
    ensures Step(TwiceBarrier(), OneTeam(), TwiceRun()[2], Pid(1, 0), TwiceRun()[3])
  {
    var p, s, s2 := TwiceBarrier(), TwiceRun()[2], TwiceRun()[3];
    assert InTeam(p, OneTeam(), 0, 1, 1) && InTeam(p, OneTeam(), 0, 1, 2) by {
      assert p.threads[1].events[0] == Barrier(0) && p.threads[2].events[0] == Barrier(0);
    }
    assert AtBarrier(p, s, 0, 1) && AtBarrier(p, s, 0, 2);
    assert !InTeam(p, OneTeam(), 0, 1, 0);
  }

  /**
   * A run in which an executed barrier is repeated: the edges order two writes that both can be next,
   * because the second visit of thread 1 is linked with the first of thread 2.
   */
  lemma RepeatedBarrierOverorders(S: set<Arc>)
    requires IsSyncArcs(TwiceBarrier(), S)
    ensures IsRun(TwiceBarrier(), OneTeam(), TwiceRun()) && Leads(EventGraph(TwiceBarrier(), S), Pid(1, 1), Pid(2, 1))
    ensures Shaped(TwiceBarrier(), TwiceRun()[3]) && Enabled(TwiceBarrier(), OneTeam(), TwiceRun()[3], Pid(1, 1)) && Enabled(TwiceBarrier(), OneTeam(), TwiceRun()[3], Pid(2, 1))
  {
    TwiceRunIsRun();
    TwiceLinked(S);
    TwiceBothEnabled();
    hide EventGraph, Leads, Enabled, IsRun, IsSyncArcs;
    var p := TwiceBarrier();
    var E := EventGraph(p, S);
    OrderLeads(p, S, Pid(1, 1), Pid(1, 2));
    LeadsEdge(E, Pid(1, 2), Pid(2, 0));
    OrderLeads(p, S, Pid(2, 0), Pid(2, 1));
    LeadsTrans(E, Pid(1, 1), Pid(1, 2), Pid(2, 0));
    LeadsTrans(E, Pid(1, 1), Pid(2, 0), Pid(2, 1));
  }

  lemma TwiceLinked(S: set<Arc>)
    requires IsSyncArcs(TwiceBarrier(), S)
    ensures Arc(Pid(1, 2), Pid(2, 0)) in EventGraph(TwiceBarrier(), S)
  {
    var p := TwiceBarrier();
    assert IsPrevBarrier(p, Pid(2, 0), Pid(1, 2));
    assert Contributes(p, Pid(2, 0), Arc(Pid(1, 2), Pid(2, 0)));
  }

  lemma TwiceBothEnabled()
    ensures Shaped(TwiceBarrier(), TwiceRun()[3]) && Enabled(TwiceBarrier(), OneTeam(), TwiceRun()[3], Pid(1, 1)) && Enabled(TwiceBarrier(), OneTeam(), TwiceRun()[3], Pid(2, 1))
  {
  }

  // ---- Two parallel regions with the same code ----------------------------------------------

  /** A region with a barrier and a write that is entered twice: threads 1 and 2, joined, and then threads 3 and 4. */
  function TwoRegions(): Program {
    var body := [Barrier(0), Write([7])];
    Program([Thread(None, [Fork(0, 1), Fork(0, 1), Join, Join, Fork(0, 1), Fork(0, 1)]),
             Thread(Some(Pid(0, 0)), body), Thread(Some(Pid(0, 1)), body), Thread(Some(Pid(0, 4)), body), Thread(Some(Pid(0, 5)), body)],
            map[Pid(0, 2) := 1, Pid(0, 3) := 2])
  }

  function RegionTeams(): Teams {
    t => if t == 0 then 0 else if t <= 2 then 1 else 2
  }

  ghost function RegionState(main: nat, one: nat, two: nat, started: set<nat>): State {
    State([main, one, two, 0, 0], started, [multiset{}, multiset{}, multiset{}, multiset{}, multiset{}])
  }

  ghost function RegionRun(): seq<State> {
    [RegionState(0, 0, 0, {0}), RegionState(1, 0, 0, {0, 1}), RegionState(2, 0, 0, {0, 1, 2}), RegionState(2, 1, 1, {0, 1, 2})]
  }

  lemma RegionFirstFork()
    ensures RegionRun()[0] == Start(TwoRegions())
    ensures Step(TwoRegions(), RegionTeams(), RegionRun()[0], Pid(0, 0), RegionRun()[1])
  {
  }

  lemma RegionSecondFork()
    ensures Step(TwoRegions(), RegionTeams(), RegionRun()[1], Pid(0, 1), RegionRun()[2])
  {
  }

  lemma RegionBarrier()
    ensures Step(TwoRegions(), RegionTeams(), RegionRun()[2], Pid(1, 0), RegionRun()[3])
  {
    var p, s := TwoRegions(), RegionRun()[2];
    RegionTeam();
    hide InTeam;
    assert AtBarrier(p, s, 0, 1) && AtBarrier(p, s, 0, 2);
  }

  lemma RegionTeam()
    ensures forall u: nat :: InTeam(TwoRegions(), RegionTeams(), 0, 1, u) <==> u == 1 || u == 2
  {
    var p := TwoRegions();
    assert p.threads[1].events[0] == Barrier(0) && p.threads[2].events[0] == Barrier(0);
  }

  lemma RegionRunIsRun()
    ensures IsRun(TwoRegions(), RegionTeams(), RegionRun())
  {
    RegionFirstFork();
    RegionSecondFork();
    RegionBarrier();
    hide Step, TwoRegions, RegionTeams, RegionState;
    var p, run := TwoRegions(), RegionRun();
    forall i | 0 < i < |run|
      ensures Follows(p, RegionTeams(), run[i - 1], run[i])
    {
      assert i == 1 || i == 2 || i == 3;
    }
  }

  lemma RegionBothEnabled()
    ensures BothEnabled(TwoRegions(), RegionTeams(), RegionRun()[3], Pid(1, 1), Pid(2, 1))
  {
  }

  lemma RegionJoined(S: set<Arc>)
    requires IsSyncArcs(TwoRegions(), S)
    ensures Arc(Pid(1, 1), Pid(0, 2)) in EventGraph(TwoRegions(), S) && Arc(Pid(0, 4), Pid(3, 0)) in EventGraph(TwoRegions(), S)
  {
    var p := TwoRegions();
    assert Contributes(p, Pid(0, 2), Arc(Pid(1, 1), Pid(0, 2)));
    assert Contributes(p, Pid(0, 4), Arc(Pid(0, 4), Pid(3, 0)));
  }

  /**
   * Barrier edges join different teams: here no thread meets the barrier twice, but the write of thread 1 leads to the
   * join, the second region, its barrier, and from there back to the barrier and the write of thread 2, which runs beside it.
   */
  lemma SharedBarrierOverorders(S: set<Arc>)
    requires IsSyncArcs(TwoRegions(), S)
    ensures IsRun(TwoRegions(), RegionTeams(), RegionRun()) && BothEnabled(TwoRegions(), RegionTeams(), RegionRun()[3], Pid(1, 1), Pid(2, 1))
    ensures Leads(EventGraph(TwoRegions(), S), Pid(1, 1), Pid(2, 1))
    ensures forall e, f :: Apart(TwoRegions(), RegionTeams(), e, f) ==> e.tid != f.tid
    ensures ForksMatched(TwoRegions())
  {
    RegionMatched();
    RegionRunIsRun();
    RegionBothEnabled();
    RegionOrdered(S);
    RegionOnce();
    hide *;
  }

  lemma RegionMatched()
    ensures ForksMatched(TwoRegions())
  {
    var p := TwoRegions();
    forall e: Pid | p.IsEvent(e) && p.At(e).Fork?
      ensures exists c :: 0 <= c < |p.threads| && p.threads[c].spawn == Some(e)
    {
      RegionSpawned(e);
    }
    RegionSpawnsDistinct();
    hide TwoRegions;
  }

  lemma RegionSpawnsDistinct()
    ensures forall c, d :: 0 <= c < d < |TwoRegions().threads| && TwoRegions().threads[c].spawn.Some? ==> TwoRegions().threads[c].spawn != TwoRegions().threads[d].spawn
    ensures forall e :: e in TwoRegions().joined ==> TwoRegions().joined[e] < |TwoRegions().threads|
  {
  }

  lemma RegionSpawned(e: Pid)
    requires TwoRegions().IsEvent(e) && TwoRegions().At(e).Fork?
    ensures exists c :: 0 <= c < |TwoRegions().threads| && TwoRegions().threads[c].spawn == Some(e)
  {
    var c := if e.eid < 2 then e.eid + 1 else e.eid - 1;
    assert e == Pid(0, e.eid);
    assert TwoRegions().threads[c].spawn == Some(e);
  }

  lemma RegionOnce()
    ensures forall e, f :: Apart(TwoRegions(), RegionTeams(), e, f) ==> e.tid != f.tid
  {
  }

  lemma RegionEvents()
    ensures TwoRegions().IsEvent(Pid(0, 4)) && TwoRegions().IsEvent(Pid(2, 0)) && TwoRegions().IsEvent(Pid(2, 1)) && TwoRegions().IsEvent(Pid(3, 0))
    ensures TwoRegions().At(Pid(2, 0)) == TwoRegions().At(Pid(3, 0)) == Barrier(0)
  {
  }

  lemma RegionOrdered(S: set<Arc>)
    requires IsSyncArcs(TwoRegions(), S)
    ensures Leads(EventGraph(TwoRegions(), S), Pid(1, 1), Pid(2, 1))
  {
    RegionJoined(S);
    RegionEvents();
    hide *;
    var p, E := TwoRegions(), EventGraph(TwoRegions(), S);
    BarrierLeads(p, S, Pid(3, 0), Pid(2, 0));
    LeadsEdge(E, Pid(1, 1), Pid(0, 2));
    OrderLeads(p, S, Pid(0, 2), Pid(0, 4));
    LeadsEdge(E, Pid(0, 4), Pid(3, 0));
    OrderLeads(p, S, Pid(2, 0), Pid(2, 1));
    LeadsTrans(E, Pid(1, 1), Pid(0, 2), Pid(0, 4));
    LeadsTrans(E, Pid(1, 1), Pid(0, 4), Pid(3, 0));
    LeadsTrans(E, Pid(1, 1), Pid(3, 0), Pid(2, 0));
    LeadsTrans(E, Pid(1, 1), Pid(2, 0), Pid(2, 1));
  }
}
