/** Both solvers on the same constraints. */
module SolverComparison {
  import opened Tarjan
  import opened ConstraintSystems
  import opened Requests
  import opened ConstraintGraphs
  import opened SolverInvariant
  import opened CopyPasses
  import opened PartialUpdateSolvers
  import opened AndersenWaves

  /** The collapsing solver, with any edge hash, computes the least solution. */
  method AnalyzePartial(hash: Hash, ops: seq<Op>) returns (pts: seq<set<nat>>)
    requires OpsOk(System(0, [], {}), ops) && ApplyAll(System(0, [], {}), ops).n < DONE
    ensures IsLeast(ApplyAll(System(0, [], {}), ops), pts)
    ensures IsAnswer(System(0, [], {}), ops, ApplyAll(System(0, [], {}), ops).objVec, pts)
  {
    hide Good, Mirrored, Links, EdgesLive, CopiesDone, AllExpanded, IsLeast, Pending, ObjectsOk, IsAnswer;
    var solver := new PartialUpdateSolver(hash);
    StartPending(solver.View(), solver.Bits(), hash);
    solver.AddBatch(ops);
    solver.RunSolver();
    pts := solver.PointsToSets();
    LeastIsAnswer(System(0, [], {}), ops, pts);
  }

  /** The reference solver computes the least solution. */
  method AnalyzeWave(ops: seq<Op>) returns (pts: seq<set<nat>>)
    requires OpsOk(System(0, [], {}), ops) && ApplyAll(System(0, [], {}), ops).n < DONE
    ensures IsLeast(ApplyAll(System(0, [], {}), ops), pts)
    ensures IsAnswer(System(0, [], {}), ops, ApplyAll(System(0, [], {}), ops).objVec, pts)
  {
    hide Good, Mirrored, Links, EdgesLive, IsLeast, ObjectsOk, IsAnswer;
    var solver := new AndersenWave();
    solver.AddBatch(ops);
    solver.RunSolver();
    pts := solver.ptsVec;
    LeastIsAnswer(System(0, [], {}), ops, pts);
  }

  /** The two solvers end with the same points-to sets. */
  method AnalyzeBoth(hash: Hash, ops: seq<Op>) returns (partial: seq<set<nat>>, wave: seq<set<nat>>)
    requires OpsOk(System(0, [], {}), ops) && ApplyAll(System(0, [], {}), ops).n < DONE
    ensures partial == wave && IsLeast(ApplyAll(System(0, [], {}), ops), partial)
    ensures IsAnswer(System(0, [], {}), ops, ApplyAll(System(0, [], {}), ops).objVec, partial)
  {
    hide IsLeast, IsAnswer;
    partial := AnalyzePartial(hash, ops);
    wave := AnalyzeWave(ops);
    LeastUnique(ApplyAll(System(0, [], {}), ops), partial, wave);
  }

  /** Before the first run everything is pending because there is nothing. */
  lemma StartPending(net: Net, fl: Flags, hash: Hash)
    requires Good(net) && net.sys == System(0, [], {})
    ensures Pending(net, fl, hash)
  {
  }
}
