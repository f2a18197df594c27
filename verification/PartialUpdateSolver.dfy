/**
 * The Andersen solver with cycle collapsing and incremental re-solving
 * (src/PointerAnalysis/Solver/PartialUpdateSolver.h and SolverBase.h).
 */
module PartialUpdateSolvers {
  import opened Reachability
  import opened Tarjan
  import opened SccIterators
  import opened ConstraintSystems
  import opened Requests
  import opened ConstraintGraphs
  import opened SolverInvariant
  import opened CopyPasses

  class PartialUpdateSolver {
    const graph: ConstraintGraph
    /** `hashEdge`: any function of the two nodes, collisions included. */
    const hash: Hash
    /** The constraints as they were given. */
    ghost var sys: System

    var ptsVec: seq<set<nat>>
    var copyWorkList: seq<bool>
    var lsWorkList: seq<bool>
    var targetList: seq<bool>
    var requiredEdge: set<nat>

    ghost function View(): Net
      reads this, graph
    {
      Net(sys, graph.rep, graph.edges, ptsVec)
    }

    function Bits(): Flags
      reads this
    {
      Flags(copyWorkList, lsWorkList, targetList, requiredEdge)
    }

    ghost predicate Valid()
      reads this, graph
    {
      graph.Valid() && graph.objVec == sys.objVec && Good(View())
    }

    /** A solver over an empty constraint graph. */
    constructor (hash: Hash)
      ensures this.hash == hash && fresh(graph) && Valid() && sys == System(0, [], {})
      ensures Bits() == Flags([], [], [], {})
    {
      graph := new ConstraintGraph();
      this.hash := hash;
      sys, ptsVec := System(0, [], {}), [];
      copyWorkList, lsWorkList, targetList, requiredEdge := [], [], [], {};
    }

    /** `processCopy`: `pts(dst) |= pts(src)`. */
    method ProcessCopy(src: nat, dst: nat) returns (changed: bool)
      requires src < |ptsVec| && dst < |ptsVec|
      modifies `ptsVec
      ensures changed == !(old(ptsVec)[src] <= old(ptsVec)[dst])
      ensures ptsVec == old(ptsVec)[dst := old(ptsVec)[dst] + old(ptsVec)[src]]
    {
      changed := !(ptsVec[src] <= ptsVec[dst]);
      ptsVec := ptsVec[dst := ptsVec[dst] + ptsVec[src]];
    }

    /** The state in the middle of a pass over the components: those from `i` on have been popped. */
    ghost predicate InPass(adj: Adj, comp: map<nat, nat>, i: nat)
      reads this, graph
    {
      && Valid() && Ordered(adj, comp) && StronglyConnected(adj, comp)
      && PassState(View(), Bits(), hash, comp, i) && Untouched(View(), adj, comp, i) && DerefsPending(View(), Bits())
      && |copyWorkList| == |lsWorkList| == |targetList| == sys.n
    }

    /** Propagate from `cur` to the nodes in `done` has happened; the other components are as in `InPass`. */
    ghost predicate InNode(adj: Adj, comp: map<nat, nat>, i: nat, cur: nat, done: set<nat>)
      reads this, graph
    {
      && Valid() && PassBut(View(), Bits(), hash, comp, i, cur, done) && Untouched(View(), adj, comp, i)
      && DerefsPending(View(), Bits())
      && |copyWorkList| == |lsWorkList| == |targetList| == sys.n
    }

    /** Process one copy edge of the node being popped. */
    method ProcessEdge(cur: nat, c: nat, ghost adj: Adj, ghost comp: map<nat, nat>, ghost i: nat, ghost done: set<nat>)
      requires InNode(adj, comp, i, cur, done) && Edge(Copy, cur, c) in graph.edges
      modifies `ptsVec, `lsWorkList
      ensures InNode(adj, comp, i, cur, done + {c})
      ensures cur < |ptsVec| == |old(ptsVec)| && ptsVec[cur] == old(ptsVec)[cur]
      ensures c < |ptsVec| && ptsVec[c] == old(ptsVec)[c] + ptsVec[cur] && (ptsVec[c] != old(ptsVec)[c] ==> Unset(lsWorkList, c))
      ensures forall b: nat :: Satisfied(old(ptsVec), cur, b) ==> Satisfied(ptsVec, cur, b)
      ensures forall b: nat :: b != c ==> (Unset(lsWorkList, b) <==> Unset(old(lsWorkList), b))
    {
      ghost var net, fl := View(), Bits();
      UnionKeeps(net, cur, c);
      assert !IsAnon(sys.objVec, c) && c != cur;
      UnionPasses(net, fl, hash, comp, i, cur, done, c);
      UnionDerefs(net, fl, cur, c);
      hide Good, PassBut, DerefsPending, Expanded;
      var changed := ProcessCopy(cur, c);
      if changed {
        lsWorkList := Reset(lsWorkList, c);
      }
      assert View() == net.(pts := net.pts[c := net.pts[c] + net.pts[cur]]);
    }

    /** Process the copy edges of a node that is a component by itself, where `shouldProcessCopy` says so. */
    method ProcessSingle(cur: nat, ghost adj: Adj, ghost comp: map<nat, nat>, ghost i: nat)
      requires InPass(adj, comp, i + 1) && cur in comp && forall v :: v in comp && comp[v] == i <==> v == cur
      modifies `ptsVec, `lsWorkList
      ensures InPass(adj, comp, i)
    {
      hide Good, Untouched, PassBut, PassState, DerefsPending, Mirrored, Links, Ordered, StronglyConnected, ObjectsOk;
      UnpoppedKnown(View(), adj, comp, i + 1, cur);
      MirroredPreds(|graph.rep|, graph.succCons, graph.predCons, graph.edges, Copy, cur);
      PopSingle(View(), Bits(), hash, adj, comp, i, cur);
      hide EdgesLive;
      var todo := graph.succCons[Port(Copy, cur)];
      ghost var all, done := todo, {};
      while todo != {}
        invariant todo <= all && done == all - todo
        invariant InNode(adj, comp, i, cur, done)
        invariant forall b :: b in all ==> Satisfied(ptsVec, cur, b) || ShouldProcess(Bits(), hash, cur, b)
        modifies `ptsVec, `lsWorkList
      {
        var c :| c in todo;
        assert Edge(Copy, cur, c) in graph.edges;
        if ShouldProcess(Bits(), hash, cur, c) {
          ProcessEdge(cur, c, adj, comp, i, done);
        } else {
          SkipPasses(View(), Bits(), hash, comp, i, cur, done, c);
        }
        todo, done := todo - {c}, done + {c};
      }
      PopDone(View(), Bits(), hash, comp, i, cur, done);
    }

    /** The first loop of `processCopySCC`: move all points-to sets of the component into its front node. */
    method MergePts(scc: seq<nat>)
      requires |scc| > 0 && Distinct(scc) && |targetList| == |ptsVec| && forall v :: v in scc ==> v < |ptsVec|
      modifies `ptsVec, `targetList
      ensures PtsMerged(old(ptsVec), ptsVec, Others(scc, scc[0]), scc[0])
      ensures |targetList| == |old(targetList)|
      ensures forall j: nat :: Unset(old(targetList), j) ==> Unset(targetList, j)
    {
      hide PtsMerged;
      var s := scc[0];
      var k := 1;
      assert s in scc;
      assert Others(scc[..1], s) == {};
      assert PtsMerged(ptsVec, ptsVec, {}, s) by {
        MergeStart(ptsVec, s);
      }
      while k < |scc|
        invariant 1 <= k <= |scc| && |ptsVec| == |old(ptsVec)| && |targetList| == |old(targetList)|
        invariant PtsMerged(old(ptsVec), ptsVec, Others(scc[..k], s), s)
        invariant forall j: nat :: Unset(old(targetList), j) ==> Unset(targetList, j)
      {
        var c := scc[k];
        assert scc[..k + 1] == scc[..k] + [c] && c != s && c in scc;
        assert Others(scc[..k + 1], s) == Others(scc[..k], s) + {c};
        if !targetList[c] {
          targetList := Reset(targetList, s);
        }
        MergeStep(old(ptsVec), ptsVec, Others(scc[..k], s), s, c);
        var _ := ProcessCopy(c, s);
        ptsVec := ptsVec[c := {}];
        k := k + 1;
      }
      assert scc[..k] == scc;
    }

    /** The second half of `processCopySCC`: propagate from the super node along all its copy edges. */
    method PropagateFrom(s: nat, ghost adj: Adj, ghost comp: map<nat, nat>, ghost i: nat)
      requires InNode(adj, comp, i, s, {}) && s < |graph.rep| && Ordered(adj, comp) && StronglyConnected(adj, comp)
      modifies `ptsVec, `lsWorkList
      ensures InPass(adj, comp, i)
    {
      hide Good, Untouched, PassBut, PassState, DerefsPending, Mirrored, Links, Ordered, StronglyConnected, EdgesLive, ObjectsOk;
      MirroredPreds(|graph.rep|, graph.succCons, graph.predCons, graph.edges, Copy, s);
      var todo := graph.succCons[Port(Copy, s)];
      ghost var all, done := todo, {};
      while todo != {}
        invariant todo <= all && done == all - todo
        invariant InNode(adj, comp, i, s, done)
        modifies `ptsVec, `lsWorkList
      {
        var c :| c in todo;
        assert Edge(Copy, s, c) in graph.edges;
        ProcessEdge(s, c, adj, comp, i, done);
        todo, done := todo - {c}, done + {c};
      }
      PopDone(View(), Bits(), hash, comp, i, s, done);
    }

    /** `processCopySCC`: merge the points-to sets, collapse the component into its front node, propagate from there. */
    method ProcessCopyScc(scc: seq<nat>, ghost adj: Adj, ghost comp: map<nat, nat>, ghost i: nat)
      requires InPass(adj, comp, i + 1) && |scc| > 1 && Distinct(scc) && Members(scc, i, comp)
      modifies this`ptsVec, this`targetList, this`lsWorkList, graph
      ensures InPass(adj, comp, i) && graph.rep == Redirect(old(graph.rep), Others(scc, scc[0]), scc[0])
    {
      hide Good, Untouched, PassBut, PassState, DerefsPending, Mirrored, Links, Ordered, StronglyConnected, EdgesLive, ObjectsOk, PtsMerged;
      ghost var net, fl := View(), Bits();
      GoodSizes(net);
      forall v: nat | v in scc
        ensures v < |graph.rep| && graph.rep[v] == v
      {
        UnpoppedKnown(net, adj, comp, i + 1, v);
      }
      var s := scc[0];
      ghost var C := Others(scc, s);
      assert scc[1] in C;
      assert IsComponent(comp, i, C, s);
      MergePts(scc);
      lsWorkList := Reset(lsWorkList, s);
      CollapseComponent(net, fl, hash, adj, comp, i, C, s, ptsVec, Bits());
      graph.CollapseSccTo(scc, s);
      assert View() == Net(net.sys, Redirect(net.rep, C, s), Quotient(net.edges, C, s), ptsVec);
      PropagateFrom(s, adj, comp, i);
    }

    /** One round of copy propagation: find the components, pop them in topological order, collapse the cycles. */
    method CopyPhase()
      requires Valid() && Pending(View(), Bits(), hash) && sys.n < DONE
      requires |copyWorkList| == |lsWorkList| == |targetList| == sys.n
      modifies this`ptsVec, this`targetList, this`lsWorkList, graph
      ensures Valid() && CopiesDone(View()) && DerefsPending(View(), Bits())
      ensures |copyWorkList| == |lsWorkList| == |targetList| == sys.n
      ensures Shrunk(old(graph.rep), old(graph.edges), graph.rep, graph.edges)
    {
      hide Good, Pending, Untouched, PassState, DerefsPending, Mirrored, Links, Ordered, StronglyConnected, EdgesLive, ObjectsOk, IsSccOrder, Roots, CopiesDone, Live;
      GoodSizes(View());
      var adj, collapsed := CopyChildren();
      var sccs, comp := AllSccs(adj, collapsed, copyWorkList);
      PassBegins(adj, collapsed, sccs, comp);
      var i := |sccs|;
      while i > 0
        invariant 0 <= i <= |sccs| && InPass(adj, comp, i)
        invariant Shrunk(old(graph.rep), old(graph.edges), graph.rep, graph.edges)
        modifies this`ptsVec, this`targetList, this`lsWorkList, graph
      {
        i := i - 1;
        var scc := sccs[i];
        assert scc != [] && Distinct(scc) && Members(scc, i, comp);
        if |scc| > 1 {
          ghost var rep := graph.rep;
          ComponentKnown(adj, comp, i, scc);
          ProcessCopyScc(scc, adj, comp, i);
          assert scc[0] in scc && scc[1] in scc && scc[1] in Others(scc, scc[0]);
          RedirectShrinks(rep, Others(scc, scc[0]), scc[0], scc[1]);
        } else {
          assert scc == [scc[0]];
          ProcessSingle(scc[0], adj, comp, i);
        }
      }
      PassEnds(View(), Bits(), hash, comp);
    }

    /** The nodes of the next component are representatives. */
    lemma ComponentKnown(adj: Adj, comp: map<nat, nat>, i: nat, scc: seq<nat>)
      requires InPass(adj, comp, i + 1) && Members(scc, i, comp)
      ensures forall v :: v in scc ==> v < |graph.rep| && graph.rep[v] == v
    {
      forall v: nat | v in scc
        ensures v < |graph.rep| && graph.rep[v] == v
      {
        UnpoppedKnown(View(), adj, comp, i + 1, v);
      }
    }

    /** The copy successors of every node, and which nodes have a super node. */
    method CopyChildren() returns (adj: Adj, collapsed: seq<bool>)
      requires graph.Valid()
      ensures |adj| == |collapsed| == |graph.rep| && IsGraph(adj)
      ensures forall v: nat, b: nat :: v < |adj| ==> (Edge(Copy, v, b) in graph.edges <==> b in adj[v])
      ensures forall v :: 0 <= v < |collapsed| ==> (collapsed[v] <==> graph.rep[v] != v)
    {
      var n := |graph.superNode|;
      assert forall v :: 0 <= v < n ==> Port(Copy, v).node == v;
      adj := seq(n, v requires 0 <= v < n && Port(Copy, v) in graph.succCons reads graph => graph.succCons[Port(Copy, v)]);
      collapsed := seq(n, v requires 0 <= v < n == |graph.superNode| reads graph => graph.superNode[v].Super?);
      forall v: nat, b: nat | v < n
        ensures Edge(Copy, v, b) in graph.edges <==> b in adj[v]
      {
        MirroredPreds(n, graph.succCons, graph.predCons, graph.edges, Copy, v);
      }
      forall v: nat, b: nat | v < n && b in adj[v]
        ensures b < n
      {
        assert Edge(Copy, v, b) in graph.edges;
      }
    }

    /** The components found for the copy work list put the pass in its initial state. */
    lemma PassBegins(adj: Adj, collapsed: seq<bool>, sccs: seq<seq<nat>>, comp: map<nat, nat>)
      requires Valid() && Pending(View(), Bits(), hash) && |copyWorkList| == |lsWorkList| == |targetList| == sys.n
      requires |adj| == |collapsed| == |graph.rep|
      requires forall v: nat, b: nat :: v < |adj| ==> (Edge(Copy, v, b) in graph.edges <==> b in adj[v])
      requires forall v :: 0 <= v < |collapsed| ==> (collapsed[v] <==> graph.rep[v] != v)
      requires IsSccOrder(adj, Roots(copyWorkList, collapsed), sccs, comp)
      ensures InPass(adj, comp, |sccs|) && Listed(sccs, comp)
    {
      hide AllSound, Reflects, Justified, IsAnon, StronglyConnected, Reach;
      var roots := Roots(copyWorkList, collapsed);
      forall v: nat | v < sys.n && Unset(copyWorkList, v)
        ensures v in comp
      {
        assert v in roots;
        ReachRefl(adj, v);
        assert FromRoot(adj, roots, v);
      }
      forall v: nat | v in comp
        ensures v < |adj| && graph.rep[v] == v
      {
        ReachableLive(View(), adj, roots, v);
      }
      PassStarts(View(), Bits(), hash, adj, comp, |sccs|);
    }

    /** All copy edges are satisfied or queued, if the load/store work list were `ls`. */
    ghost predicate Queued(ls: seq<bool>)
      reads this, graph
    {
      && Valid() && EdgesPending(View(), Flags(copyWorkList, ls, targetList, requiredEdge), hash)
      && WorkOk(View(), Flags(copyWorkList, ls, targetList, requiredEdge))
    }

    /** `recordCopyEdge`. */
    method RecordCopyEdge(src: nat, dst: nat)
      modifies `copyWorkList, `targetList, `requiredEdge
      ensures copyWorkList == Reset(old(copyWorkList), src) && targetList == Reset(old(targetList), dst)
      ensures requiredEdge == old(requiredEdge) + {hash(src, dst)}
    {
      if src < |copyWorkList| {
        copyWorkList := copyWorkList[src := false];
      }
      if dst < |targetList| {
        targetList := targetList[dst := false];
      }
      requiredEdge := requiredEdge + {hash(src, dst)};
    }

    /** Add the copy edge that dereferencing `o` through `e` asks for, and record it if it is new. */
    method LinkObject(a: nat, b: nat, ghost e: Edge, ghost o: nat, ghost ls: seq<bool>)
      requires Queued(ls) && e in graph.edges && (e.kind == Load || e.kind == Store)
      requires Pointer(e) < |ptsVec| && o in ptsVec[Pointer(e)]
      requires o < |sys.objVec| && sys.objVec[o] < |graph.rep| && Edge(Copy, a, b) == Derived(sys.objVec, graph.rep, e, o)
      modifies this`copyWorkList, this`targetList, this`requiredEdge
      modifies graph`succCons, graph`predCons, graph`edges
      ensures Queued(ls) && Present(graph.edges, Edge(Copy, a, b))
      ensures graph.edges == if SelfCopy(Edge(Copy, a, b)) then old(graph.edges) else old(graph.edges) + {Edge(Copy, a, b)}
      ensures graph.edges == old(graph.edges) ==> Bits() == old(Bits())
      ensures AllSet(copyWorkList, sys.n) ==> graph.edges == old(graph.edges)
      ensures |copyWorkList| == |old(copyWorkList)| && |targetList| == |old(targetList)|
    {
      hide Good, EdgesPending, WorkOk, Mirrored, Links, EdgesLive, ObjectsOk, IsAnon;
      ghost var net, fl := View(), Flags(copyWorkList, ls, targetList, requiredEdge);
      GoodSizes(net);
      DerivedOk(net, e, o);
      if a != b {
        DeriveKeeps(net, e, o);
        RecordPending(net, fl, hash, Edge(Copy, a, b));
        RecordWork(net, net.edges + {Edge(Copy, a, b)}, fl, hash, Edge(Copy, a, b));
      }
      var added := graph.AddConstraints(a, b, Copy);
      if added {
        RecordCopyEdge(a, b);
      } else {
        assert graph.edges == net.edges;
      }
    }

    /** `processLoad`: every object `src` points to is copied to `dst`. */
    method ProcessLoad(src: nat, dst: nat, ghost ls: seq<bool>)
      requires Queued(ls) && Edge(Load, src, dst) in graph.edges && src < |ptsVec|
      modifies this`copyWorkList, this`targetList, this`requiredEdge
      modifies graph`succCons, graph`predCons, graph`edges
      ensures Queued(ls) && EdgeExpanded(View(), Edge(Load, src, dst))
      ensures old(graph.edges) <= graph.edges && forall e :: e in graph.edges - old(graph.edges) ==> e.kind == Copy
      ensures graph.edges == old(graph.edges) ==> Bits() == old(Bits())
      ensures AllSet(copyWorkList, sys.n) ==> graph.edges == old(graph.edges)
      ensures |copyWorkList| == |old(copyWorkList)| && |targetList| == |old(targetList)|
    {
      ghost var e := Edge(Load, src, dst);
      hide Good, EdgesPending, WorkOk, Mirrored, Links, EdgesLive;
      GoodPoints(View(), src);
      var todo := ptsVec[src];
      ghost var all := todo;
      while todo != {}
        invariant todo <= all && Queued(ls)
        invariant forall o :: o in all - todo ==> Present(graph.edges, Derived(sys.objVec, graph.rep, e, o))
        invariant old(graph.edges) <= graph.edges && forall e :: e in graph.edges - old(graph.edges) ==> e.kind == Copy
        invariant graph.edges == old(graph.edges) ==> Bits() == old(Bits())
        invariant AllSet(copyWorkList, sys.n) ==> graph.edges == old(graph.edges)
        invariant |copyWorkList| == |old(copyWorkList)| && |targetList| == |old(targetList)|
        modifies this`copyWorkList, this`targetList, this`requiredEdge
        modifies graph`succCons, graph`predCons, graph`edges
      {
        var o :| o in todo;
        var node := graph.GetSuperNode(graph.objVec[o]);
        LinkObject(node, dst, e, o, ls);
        todo := todo - {o};
      }
    }

    /** `processStore`: `src` is copied to every object `dst` points to. */
    method ProcessStore(src: nat, dst: nat, ghost ls: seq<bool>)
      requires Queued(ls) && Edge(Store, src, dst) in graph.edges && dst < |ptsVec|
      modifies this`copyWorkList, this`targetList, this`requiredEdge
      modifies graph`succCons, graph`predCons, graph`edges
      ensures Queued(ls) && EdgeExpanded(View(), Edge(Store, src, dst))
      ensures old(graph.edges) <= graph.edges && forall e :: e in graph.edges - old(graph.edges) ==> e.kind == Copy
      ensures graph.edges == old(graph.edges) ==> Bits() == old(Bits())
      ensures AllSet(copyWorkList, sys.n) ==> graph.edges == old(graph.edges)
      ensures |copyWorkList| == |old(copyWorkList)| && |targetList| == |old(targetList)|
    {
      ghost var e := Edge(Store, src, dst);
      hide Good, EdgesPending, WorkOk, Mirrored, Links, EdgesLive;
      GoodPoints(View(), dst);
      var todo := ptsVec[dst];
      ghost var all := todo;
      while todo != {}
        invariant todo <= all && Queued(ls)
        invariant forall o :: o in all - todo ==> Present(graph.edges, Derived(sys.objVec, graph.rep, e, o))
        invariant old(graph.edges) <= graph.edges && forall e :: e in graph.edges - old(graph.edges) ==> e.kind == Copy
        invariant graph.edges == old(graph.edges) ==> Bits() == old(Bits())
        invariant AllSet(copyWorkList, sys.n) ==> graph.edges == old(graph.edges)
        invariant |copyWorkList| == |old(copyWorkList)| && |targetList| == |old(targetList)|
        modifies this`copyWorkList, this`targetList, this`requiredEdge
        modifies graph`succCons, graph`predCons, graph`edges
      {
        var o :| o in todo;
        var node := graph.GetSuperNode(graph.objVec[o]);
        LinkObject(src, node, e, o, ls);
        todo := todo - {o};
      }
    }

    /** The stores through a node. */
    method DerefStores(cur: nat, ghost ls: seq<bool>)
      requires Queued(ls) && cur < |graph.rep|
      modifies this`copyWorkList, this`targetList, this`requiredEdge
      modifies graph`succCons, graph`predCons, graph`edges
      ensures Queued(ls) && forall e :: e in graph.edges && e.kind == Store && Pointer(e) == cur ==> EdgeExpanded(View(), e)
      ensures old(graph.edges) <= graph.edges && forall e :: e in graph.edges - old(graph.edges) ==> e.kind == Copy
      ensures graph.edges == old(graph.edges) ==> Bits() == old(Bits())
      ensures AllSet(copyWorkList, sys.n) ==> graph.edges == old(graph.edges)
      ensures |copyWorkList| == |old(copyWorkList)| && |targetList| == |old(targetList)|
    {
      hide Good, EdgesPending, WorkOk, Mirrored, Links, EdgesLive, EdgeExpanded;
      GoodSizes(View());
      hide Sized;
      MirroredPreds(|graph.rep|, graph.succCons, graph.predCons, graph.edges, Store, cur);
      ghost var E := graph.edges;
      var todo := graph.predCons[Port(Store, cur)];
      ghost var all := todo;
      while todo != {}
        invariant todo <= all && Queued(ls)
        invariant forall s :: s in all - todo ==> EdgeExpanded(View(), Edge(Store, s, cur))
        invariant E <= graph.edges && forall e :: e in graph.edges - E ==> e.kind == Copy
        invariant graph.edges == E ==> Bits() == old(Bits())
        invariant AllSet(copyWorkList, sys.n) ==> graph.edges == E
        invariant |copyWorkList| == |old(copyWorkList)| && |targetList| == |old(targetList)|
        modifies this`copyWorkList, this`targetList, this`requiredEdge
        modifies graph`succCons, graph`predCons, graph`edges
      {
        var s :| s in todo;
        ghost var net := View();
        ProcessStore(s, cur, ls);
        DerefsGrow(net, graph.edges);
        todo := todo - {s};
      }
      forall e | e in graph.edges && e.kind == Store && Pointer(e) == cur
        ensures EdgeExpanded(View(), e)
      {
        assert e in E;
        assert e == Edge(Store, e.src, cur);
      }
    }

    /** The loads through a node. */
    method DerefLoads(cur: nat, ghost ls: seq<bool>)
      requires Queued(ls) && cur < |graph.rep|
      modifies this`copyWorkList, this`targetList, this`requiredEdge
      modifies graph`succCons, graph`predCons, graph`edges
      ensures Queued(ls) && forall e :: e in graph.edges && e.kind == Load && Pointer(e) == cur ==> EdgeExpanded(View(), e)
      ensures old(graph.edges) <= graph.edges && forall e :: e in graph.edges - old(graph.edges) ==> e.kind == Copy
      ensures graph.edges == old(graph.edges) ==> Bits() == old(Bits())
      ensures AllSet(copyWorkList, sys.n) ==> graph.edges == old(graph.edges)
      ensures |copyWorkList| == |old(copyWorkList)| && |targetList| == |old(targetList)|
    {
      hide Good, EdgesPending, WorkOk, Mirrored, Links, EdgesLive, EdgeExpanded;
      GoodSizes(View());
      hide Sized;
      MirroredPreds(|graph.rep|, graph.succCons, graph.predCons, graph.edges, Load, cur);
      ghost var E := graph.edges;
      var todo := graph.succCons[Port(Load, cur)];
      ghost var all := todo;
      while todo != {}
        invariant todo <= all && Queued(ls)
        invariant forall d :: d in all - todo ==> EdgeExpanded(View(), Edge(Load, cur, d))
        invariant E <= graph.edges && forall e :: e in graph.edges - E ==> e.kind == Copy
        invariant graph.edges == E ==> Bits() == old(Bits())
        invariant AllSet(copyWorkList, sys.n) ==> graph.edges == E
        invariant |copyWorkList| == |old(copyWorkList)| && |targetList| == |old(targetList)|
        modifies this`copyWorkList, this`targetList, this`requiredEdge
        modifies graph`succCons, graph`predCons, graph`edges
      {
        var d :| d in todo;
        ghost var net := View();
        ProcessLoad(cur, d, ls);
        DerefsGrow(net, graph.edges);
        todo := todo - {d};
      }
      forall e | e in graph.edges && e.kind == Load && Pointer(e) == cur
        ensures EdgeExpanded(View(), e)
      {
        assert e in E;
        assert e == Edge(Load, cur, e.dst);
      }
    }

    /** Process the stores into and the loads from `cur`. */
    method DerefNode(cur: nat, ghost ls: seq<bool>)
      requires Queued(ls) && cur < |graph.rep|
      modifies this`copyWorkList, this`targetList, this`requiredEdge
      modifies graph`succCons, graph`predCons, graph`edges
      ensures Queued(ls) && Expanded(View(), cur)
      ensures old(graph.edges) <= graph.edges && forall e :: e in graph.edges - old(graph.edges) ==> e.kind == Copy
      ensures graph.edges == old(graph.edges) ==> Bits() == old(Bits())
      ensures AllSet(copyWorkList, sys.n) ==> graph.edges == old(graph.edges)
      ensures |copyWorkList| == |old(copyWorkList)| && |targetList| == |old(targetList)|
    {
      hide Good, EdgesPending, WorkOk, Mirrored, Links, EdgesLive, EdgeExpanded;
      DerefStores(cur, ls);
      ghost var net := View();
      DerefLoads(cur, ls);
      DerefsGrow(net, graph.edges);
      GoodSizes(View());
      forall e | e in graph.edges && (e.kind == Load || e.kind == Store) && Pointer(e) == cur
        ensures EdgeExpanded(View(), e)
      {
        assert e.kind == Store ==> e in net.edges;
      }
      hide Expanded;
      ExpandedByEdges(View(), cur);
    }

    /** Every copy edge satisfied, everything dereferenced, all work lists empty as `solve` asserts. */
    ghost predicate AtFixpoint()
      reads this, graph
    {
      && Valid() && CopiesDone(View()) && AllExpanded(View())
      && AllSet(copyWorkList, sys.n) && AllSet(lsWorkList, sys.n) && AllSet(targetList, sys.n) && requiredEdge == {}
    }

    /** The load/store half of a round: dereference every changed node, then mark all of them as handled. */
    method DerefPhase()
      requires Valid() && CopiesDone(View()) && DerefsPending(View(), Bits())
      requires |copyWorkList| == |lsWorkList| == |targetList| == sys.n
      modifies this`copyWorkList, this`targetList, this`requiredEdge, this`lsWorkList
      modifies graph`succCons, graph`predCons, graph`edges
      ensures Valid() && Pending(View(), Bits(), hash) && AllExpanded(View())
      ensures |copyWorkList| == |lsWorkList| == |targetList| == sys.n
      ensures AllSet(lsWorkList, sys.n)
      ensures old(graph.edges) <= graph.edges && forall e :: e in graph.edges - old(graph.edges) ==> e.kind == Copy
      ensures AllSet(copyWorkList, sys.n) <==> graph.edges == old(graph.edges)
      ensures AllSet(copyWorkList, sys.n) ==> AllSet(targetList, sys.n) && requiredEdge == {}
    {
      hide Good, EdgesPending, WorkOk, Mirrored, Links, EdgesLive, Expanded, CopiesDone, ExpandedUpTo, AllExpanded;
      var n := |lsWorkList|;
      GoodSizes(View());
      ghost var start := View();
      hide Sized;
      var allSet := seq(n, _ => true);
      copyWorkList, targetList, requiredEdge := allSet, allSet, {};
      QuietQueued(View(), Bits().(lsWork := allSet), hash);
      ghost var E, bits := graph.edges, Bits();
      var id := FindNextUnset(lsWorkList, -1);
      ExpandedStart(start, bits.(lsWork := lsWorkList), id);
      while id >= 0
        invariant id == -1 || 0 <= id < n
        invariant Queued(allSet) && Sized(View()) && |copyWorkList| == |targetList| == n
        invariant ExpandedUpTo(View(), lsWorkList, id)
        invariant E <= graph.edges && forall e :: e in graph.edges - E ==> e.kind == Copy
        invariant graph.edges == E ==> Bits() == bits
        invariant AllSet(copyWorkList, n) ==> graph.edges == E
        modifies this`copyWorkList, this`targetList, this`requiredEdge
        modifies graph`succCons, graph`predCons, graph`edges
        decreases if id == -1 then 0 else n - id
      {
        ghost var net := View();
        DerefNode(id, allSet);
        GoodSizes(View());
        ghost var last := id;
        id := FindNextUnset(lsWorkList, id);
        ExpandedNext(net, graph.edges, lsWorkList, last, id);
      }
      ExpandedAll(View(), lsWorkList, Bits().(lsWork := allSet));
      lsWorkList := allSet;
    }

    /**
     * `runSolver`: rounds of copy propagation and dereferencing until no new copy edge turns up.
     * The points-to sets, read through the super nodes, are then the least solution.
     */
    method RunSolver()
      requires Pending(View(), Bits(), hash) && Valid() && sys.n < DONE
      requires |copyWorkList| == |lsWorkList| == |targetList| == sys.n
      modifies this`ptsVec, this`copyWorkList, this`lsWorkList, this`targetList, this`requiredEdge, graph
      ensures AtFixpoint() && IsLeast(sys, Resolved(View()))
    {
      hide Good, EdgesPending, WorkOk, Mirrored, Links, CopiesDone, DerefsPending, Live, Absent;
      hide IsLeast, AllExpanded, Sized;
      var more := true;
      while more
        invariant Valid() && |copyWorkList| == |lsWorkList| == |targetList| == sys.n
        invariant more ==> Pending(View(), Bits(), hash)
        invariant !more ==> AtFixpoint()
        decreases more, Live(graph.rep), Absent(sys.n, graph.edges)
      {
        CopyPhase();
        GoodSizes(View());
        ghost var E := graph.edges;
        DerefPhase();
        var unset := FindNextUnset(copyWorkList, -1);
        more := unset >= 0;
        if more {
          assert !copyWorkList[unset as nat];
          AbsentShrinks(graph.rep, E, graph.edges);
        } else {
          QuietCopies(View(), Bits(), hash);
        }
      }
      GoodSizes(View());
      QuietIsLeast(View());
    }

    /** `addCGNode` for a pointer: no set, no edges, and on every work list once those are extended. */
    method AddPointer() returns (v: nat)
      requires Valid() && Pending(View(), Bits(), hash) && |copyWorkList| == |lsWorkList| <= sys.n
      modifies this`ptsVec, this`sys, graph
      ensures Valid() && Pending(View(), Bits(), hash)
      ensures v == old(sys.n) && sys == Apply(old(sys), NewPointer)
    {
      hide Mirrored, Links, EdgesLive, Good, Pending;
      ghost var net := View();
      GoodSizes(net);
      NodeKeeps(net);
      v := graph.AddNode();
      ptsVec := ptsVec + [{}];
      sys := sys.(n := sys.n + 1);
      GrowPending(net, View(), Bits(), hash);
    }

    /** `addCGNode` for an object: its anonymous node points to it. */
    method AddObject() returns (v: nat)
      requires Valid() && Pending(View(), Bits(), hash) && |copyWorkList| == |lsWorkList| <= sys.n
      modifies this`ptsVec, this`sys, graph
      ensures Valid() && Pending(View(), Bits(), hash)
      ensures v == old(sys.n) && sys == Apply(old(sys), NewObject)
    {
      hide Mirrored, Links, EdgesLive, Good, Pending;
      ghost var net := View();
      GoodSizes(net);
      ObjectKeeps(net);
      v := graph.AddObjNode();
      ptsVec := ptsVec + [{}, {|graph.objVec| - 1}];
      sys := Apply(sys, NewObject);
      GrowPending(net, View(), Bits(), hash);
    }

    /** `addConstraints` followed by `onNewConstraint` when the solver has seen `nodeNum` nodes so far. */
    method AddConstraint(src: nat, dst: nat, kind: Kind)
      requires Valid() && Pending(View(), Bits(), hash) && |copyWorkList| == |lsWorkList| <= sys.n
      requires EdgeOk(sys.n, sys.objVec, Edge(kind, src, dst))
      modifies this`sys, this`copyWorkList, this`targetList, this`requiredEdge
      modifies graph`succCons, graph`predCons, graph`edges
      ensures Valid() && Pending(View(), Bits(), hash)
      ensures sys == Apply(old(sys), NewConstraint(Edge(kind, src, dst)))
      ensures |copyWorkList| == |old(copyWorkList)| && |targetList| == |old(targetList)|
    {
      hide Mirrored, Links, EdgesLive, Good, EdgesPending, WorkOk, DerefsPending, IsAnon, IsObject;
      var nodeNum := |copyWorkList|;
      ghost var net, e := View(), Edge(kind, src, dst);
      GoodSizes(net);
      ConstraintKeeps(net, e);
      ghost var f := Stored(net.rep, e);
      var a := graph.GetSuperNode(if kind == AddrOf then src + 1 else src);
      var b := graph.GetSuperNode(dst);
      var added := graph.AddConstraints(src, dst, kind);
      sys := sys.(cons := sys.cons + {e});
      ghost var net1 := View();
      if !added {
        SamePending(net, net1, Bits(), hash);
      } else if kind == Copy || kind == AddrOf {
        CopyPending(net, net1, Bits(), hash, f);
        if a < nodeNum {
          RecordCopyEdge(a, b);
        }
      } else {
        DerefQueued(net, net1, Bits(), hash, f);
        DerefNew(a, b, kind, nodeNum, net);
      }
    }

    /** `onNewConstraint` for a load or store edge: dereference at once if the pointer was already handled. */
    method DerefNew(a: nat, b: nat, kind: Kind, nodeNum: nat, ghost net: Net)
      requires (kind == Load || kind == Store) && nodeNum == |lsWorkList| && Queued(lsWorkList)
      requires Good(net) && DerefsPending(net, Bits()) && SameNet(net, View()) && a < sys.n && b < sys.n
      requires graph.edges == net.edges + {Edge(kind, a, b)}
      modifies this`copyWorkList, this`targetList, this`requiredEdge
      modifies graph`succCons, graph`predCons, graph`edges
      ensures Valid() && Pending(View(), Bits(), hash)
      ensures |copyWorkList| == |old(copyWorkList)| && |targetList| == |old(targetList)|
    {
      hide Mirrored, Links, EdgesLive, Good, EdgesPending, WorkOk, DerefsPending, EdgeExpanded;
      GoodSizes(View());
      hide Sized;
      ghost var net1, fl := View(), Bits();
      if kind == Load && a < nodeNum {
        ProcessLoad(a, b, lsWorkList);
      } else if kind == Store && b < nodeNum {
        ProcessStore(a, b, lsWorkList);
      }
      GoodSizes(net);
      GoodSizes(View());
      DerefDone(net, net1, View(), fl, Bits(), Edge(kind, a, b));
    }

    /** A batch of new nodes and constraints arrives, before the first run or between two runs. */
    method AddBatch(batch: seq<Op>)
      requires Valid() && Pending(View(), Bits(), hash) && OpsOk(sys, batch)
      requires |copyWorkList| == |lsWorkList| == |targetList| <= sys.n
      modifies this, graph
      ensures Valid() && Pending(View(), Bits(), hash) && sys == ApplyAll(old(sys), batch)
      ensures |copyWorkList| == |lsWorkList| == |targetList| == sys.n
    {
      hide Good, Pending, Mirrored, Links, EdgesLive, ObjectsOk;
      var i := 0;
      while i < |batch|
        invariant i <= |batch| && Valid() && Pending(View(), Bits(), hash)
        invariant sys == ApplyAll(old(sys), batch[..i])
        invariant |copyWorkList| == |lsWorkList| == |targetList| <= sys.n
      {
        assert batch[..i + 1][..i] == batch[..i];
        match batch[i] {
          case NewPointer =>
            var _ := AddPointer();
          case NewObject =>
            var _ := AddObject();
          case NewConstraint(e) =>
            AddConstraint(e.src, e.dst, e.kind);
        }
        i := i + 1;
      }
      assert batch[..i] == batch;
      ghost var fl := Bits();
      GoodSizes(View());
      var n := |ptsVec|;
      copyWorkList, lsWorkList, targetList := Resize(copyWorkList, n), Resize(lsWorkList, n), Resize(targetList, n);
      ResizePending(View(), fl, Bits(), hash);
    }

    /** The points-to set of every node, read through its super node. */
    method PointsToSets() returns (r: seq<set<nat>>)
      requires Valid()
      ensures RepsOk(sys.n, graph.rep) && |ptsVec| == sys.n && r == Resolved(View())
    {
      hide Good, Mirrored, Links, EdgesLive;
      GoodSizes(View());
      r := [];
      while |r| < |ptsVec|
        invariant |r| <= |ptsVec| && r == Resolved(View())[..|r|]
      {
        var v := graph.GetSuperNode(|r|);
        r := r + [ptsVec[v]];
      }
    }

    /** One more batch after a fixpoint, solved incrementally: the least solution of the enlarged system. */
    method Resolve(batch: seq<Op>)
      requires AtFixpoint() && OpsOk(sys, batch) && ApplyAll(sys, batch).n < DONE
      modifies this, graph
      ensures AtFixpoint() && sys == ApplyAll(old(sys), batch) && IsLeast(sys, Resolved(View()))
      ensures IsAnswer(old(sys), batch, sys.objVec, Resolved(View()))
    {
      hide Good, Pending, Mirrored, Links, EdgesLive, ObjectsOk, CopiesDone, AllExpanded, IsAnswer, IsLeast;
      FixpointPending(View(), Bits(), hash);
      AddBatch(batch);
      RunSolver();
      GoodSizes(View());
      LeastIsAnswer(old(sys), batch, Resolved(View()));
    }

    /** The first run, over the initial constraints. */
    method SolveInitial(initial: seq<Op>)
      requires Valid() && sys == System(0, [], {}) && Bits() == Flags([], [], [], {}) && graph.edges == {}
      requires OpsOk(sys, initial) && ApplyAll(sys, initial).n < DONE
      modifies this, graph
      ensures AtFixpoint() && sys == ApplyAll(old(sys), initial) && IsLeast(sys, Resolved(View()))
    {
      assert Pending(View(), Bits(), hash);
      hide Good, Pending, Mirrored, Links, EdgesLive, ObjectsOk, Sized, CopiesDone, AllExpanded, IsLeast;
      AddBatch(initial);
      RunSolver();
    }

    /** One run for every batch that resolving calls adds. */
    method SolveBatches(initial: seq<Op>, batches: seq<seq<Op>>, ghost sys0: System)
      requires AtFixpoint() && sys == ApplyAll(sys0, initial) && IsLeast(sys, Resolved(View()))
      requires forall i :: 0 <= i < |batches| ==>
        var at := Rounds(sys0, initial, batches[..i]); OpsOk(at, batches[i]) && ApplyAll(at, batches[i]).n < DONE
      modifies this, graph
      ensures AtFixpoint() && sys == Rounds(sys0, initial, batches) && IsLeast(sys, Resolved(View()))
    {
      hide Good, Mirrored, Links, EdgesLive, CopiesDone, AllExpanded, IsLeast, Resolved, OpsOk, ApplyAll, Rounds, IsAnswer;
      RoundsStart(sys0, initial, batches);
      GoodSizes(View());
      var i := 0;
      while i < |batches|
        invariant i <= |batches| && AtFixpoint() && sys == Rounds(sys0, initial, batches[..i])
        invariant RepsOk(sys.n, graph.rep) && |ptsVec| == sys.n && IsLeast(sys, Resolved(View()))
      {
        RoundsStep(sys0, initial, batches, i);
        Resolve(batches[i]);
        GoodSizes(View());
        i := i + 1;
      }
      assert batches[..i] == batches;
    }

    /** `solve`: the first run over the initial constraints, then one run for every batch that resolving calls adds. */
    method Solve(initial: seq<Op>, batches: seq<seq<Op>>)
      requires Valid() && sys == System(0, [], {}) && Bits() == Flags([], [], [], {}) && graph.edges == {}
      requires OpsOk(sys, initial) && ApplyAll(sys, initial).n < DONE
      requires forall i :: 0 <= i < |batches| ==>
        var at := Rounds(sys, initial, batches[..i]); OpsOk(at, batches[i]) && ApplyAll(at, batches[i]).n < DONE
      modifies this, graph
      ensures AtFixpoint() && sys == Rounds(old(sys), initial, batches) && IsLeast(sys, Resolved(View()))
      ensures IsAnswer(old(sys), initial + Concat(batches), sys.objVec, Resolved(View()))
    {
      SolveInitial(initial);
      SolveBatches(initial, batches, old(sys));
      hide Good, Mirrored, Links, EdgesLive, CopiesDone, AllExpanded, IsLeast, Resolved, Rounds, IsAnswer;
      RoundsAnswer(old(sys), initial, batches, Resolved(View()));
    }
  }

  /** The system after the initial constraints and then the given batches. */
  ghost function Rounds(sys: System, initial: seq<Op>, batches: seq<seq<Op>>): System
    decreases |batches|
  {
    if batches == [] then ApplyAll(sys, initial)
    else ApplyAll(Rounds(sys, initial, batches[..|batches| - 1]), batches[|batches| - 1])
  }

  lemma RoundsStart(sys: System, initial: seq<Op>, batches: seq<seq<Op>>)
    ensures Rounds(sys, initial, batches[..0]) == ApplyAll(sys, initial)
  {
  }

  lemma RoundsStep(sys: System, initial: seq<Op>, batches: seq<seq<Op>>, i: nat)
    requires i < |batches|
    ensures Rounds(sys, initial, batches[..i + 1]) == ApplyAll(Rounds(sys, initial, batches[..i]), batches[i])
  {
    assert batches[..i + 1][..i] == batches[..i];
  }

  lemma RoundsAnswer(sys: System, initial: seq<Op>, batches: seq<seq<Op>>, q: seq<set<nat>>)
    requires IsLeast(Rounds(sys, initial, batches), q)
    ensures IsAnswer(sys, initial + Concat(batches), Rounds(sys, initial, batches).objVec, q)
  {
    hide *;
    RoundsAsked(sys, initial, batches);
    LeastIsAnswer(sys, initial + Concat(batches), q);
  }

  /** Batches add up to one list of requests. */
  lemma {:induction false} RoundsAsked(sys: System, initial: seq<Op>, batches: seq<seq<Op>>)
    ensures Rounds(sys, initial, batches) == ApplyAll(sys, initial + Concat(batches))
    decreases |batches|
  {
    if batches == [] {
      assert initial + Concat(batches) == initial;
    } else {
      var most, last := batches[..|batches| - 1], batches[|batches| - 1];
      RoundsAsked(sys, initial, most);
      ApplyAllAppend(sys, initial + Concat(most), last);
      assert initial + Concat(batches) == (initial + Concat(most)) + last;
    }
  }
}
