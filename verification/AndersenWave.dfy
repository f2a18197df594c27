/**
 * The reference solver without cycle collapsing (src/PointerAnalysis/Solver/AndersenWave.h): it
 * propagates inside a component instead of merging it, and revisits every node in every round.
 */
module AndersenWaves {
  import opened Reachability
  import opened Tarjan
  import opened SccIterators
  import opened ConstraintSystems
  import opened ConstraintGraphs
  import opened SolverInvariant
  import opened CopyPasses

  /** Sets only grew, and not at all in the components before `i`. */
  ghost predicate Grown(pts: seq<set<nat>>, pts': seq<set<nat>>, comp: map<nat, nat>, i: nat) {
    && |pts'| == |pts|
    && (forall v :: 0 <= v < |pts| ==> pts[v] <= pts'[v])
    && (forall v :: 0 <= v < |pts| && v in comp && comp[v] < i ==> pts'[v] == pts[v])
  }

  /** The copy edges out of the components before `i` are satisfied. */
  ghost predicate WavePass(net: Net, comp: map<nat, nat>, i: nat) {
    forall e :: e in net.edges && e.kind == Copy && e.src in comp && comp[e.src] < i ==> Satisfied(net.pts, e.src, e.dst)
  }

  /** No copy edge leads back to an earlier component, and every node has one. */
  ghost predicate Forward(n: nat, edges: set<Edge>, comp: map<nat, nat>) {
    && (forall v: nat :: v < n ==> v in comp)
    && (forall e :: e in edges && e.kind == Copy ==> e.src in comp && e.dst in comp && comp[e.src] <= comp[e.dst])
  }

  lemma GrownTrans(pts: seq<set<nat>>, pts1: seq<set<nat>>, pts2: seq<set<nat>>, comp: map<nat, nat>, i: nat)
    requires Grown(pts, pts1, comp, i) && Grown(pts1, pts2, comp, i)
    ensures Grown(pts, pts2, comp, i)
  {
  }

  lemma EdgesFromGrow(net: Net, pts': seq<set<nat>>, comp: map<nat, nat>, i: nat, v: nat)
    requires EdgesFrom(net, v) && Grown(net.pts, pts', comp, i) && v < |pts'| && pts'[v] == net.pts[v]
    ensures EdgesFrom(net.(pts := pts'), v)
  {
  }

  lemma GrownPass(net: Net, pts': seq<set<nat>>, comp: map<nat, nat>, i: nat)
    requires WavePass(net, comp, i) && Grown(net.pts, pts', comp, i)
    ensures WavePass(net.(pts := pts'), comp, i)
  {
  }

  ghost predicate EdgesFrom(net: Net, v: nat) {
    forall b :: Edge(Copy, v, b) in net.edges ==> Satisfied(net.pts, v, b)
  }

  /** The components before and including `i` are done once all edges out of the nodes of `i` are. */
  lemma ComponentDone(net: Net, comp: map<nat, nat>, i: nat)
    requires WavePass(net, comp, i) && forall v :: v in comp && comp[v] == i ==> EdgesFrom(net, v)
    ensures WavePass(net, comp, i + 1)
  {
    forall e | e in net.edges && e.kind == Copy && e.src in comp && comp[e.src] < i + 1
      ensures Satisfied(net.pts, e.src, e.dst)
    {
      assert e == Edge(Copy, e.src, e.dst);
      assert comp[e.src] == i ==> EdgesFrom(net, e.src);
    }
  }

  /** Every solution gives all nodes of `scc` the same set. */
  ghost predicate Uniform(sys: System, scc: seq<nat>) {
    forall q, v, w :: Fits(sys, q) && v in scc && w in scc ==> v < |q| && w < |q| && q[v] == q[w]
  }

  lemma SpreadGrown(pts: seq<set<nat>>, pts': seq<set<nat>>, n: nat, E: set<Edge>, comp: map<nat, nat>, node: nat)
    requires Forward(n, E, comp) && |pts| == |pts'| == n && node < n
    requires forall v: nat :: v < |pts| ==>
      pts'[v] == if Edge(Copy, node, v) in E then pts[v] + pts[node] else pts[v]
    ensures node in comp && Grown(pts, pts', comp, comp[node])
  {
    forall v: nat | v < |pts| && v in comp && comp[v] < comp[node]
      ensures Edge(Copy, node, v) !in E
    {
      assert Edge(Copy, node, v).src == node && Edge(Copy, node, v).dst == v;
    }
  }

  /** `adj` holds the copy predecessors. */
  ghost predicate IsReverse(net: Net, adj: Adj) {
    |adj| == net.sys.n && forall v: nat, b: nat :: v < |adj| ==> (Edge(Copy, b, v) in net.edges <==> b in adj[v])
  }

  /** The components of the reversed graph, in the order found, put every copy edge forward. */
  lemma OrderFacts(net: Net, adj: Adj, roots: set<nat>, sccs: seq<seq<nat>>, comp: map<nat, nat>)
    requires Good(net) && IsReverse(net, adj) && IsSccOrder(adj, roots, sccs, comp) && forall v: nat :: v < net.sys.n ==> v in roots
    ensures Forward(net.sys.n, net.edges, comp) && WavePass(net, comp, 0) && Listed(sccs, comp)
  {
    GoodSizes(net);
    assert EdgesLive(net.rep, net.edges);
    hide Good, Sized, Listed, StronglyConnected, FromRoot, EdgesLive, Ordered, IsReverse;
    forall v: nat | v < net.sys.n
      ensures v in comp
    {
      RootFrom(adj, roots, v);
    }
    hide IsSccOrder;
    ReverseOrdered(net, adj, comp);
  }

  lemma ReverseOrdered(net: Net, adj: Adj, comp: map<nat, nat>)
    requires EdgesLive(net.rep, net.edges) && |net.rep| == net.sys.n && IsReverse(net, adj) && Ordered(adj, comp)
    requires forall v: nat :: v < net.sys.n ==> v in comp
    ensures Forward(net.sys.n, net.edges, comp)
  {
    forall e | e in net.edges && e.kind == Copy
      ensures e.src in comp && e.dst in comp && comp[e.src] <= comp[e.dst]
    {
      assert e == Edge(Copy, e.src, e.dst);
      assert e.src in adj[e.dst];
    }
  }

  lemma RootFrom(adj: Adj, roots: set<nat>, v: nat)
    requires v in roots
    ensures FromRoot(adj, roots, v)
  {
    ReachRefl(adj, v);
  }

  /** All solutions agree on a component, and a cycle has no anonymous node. */
  lemma ComponentFacts(net: Net, adj: Adj, roots: set<nat>, sccs: seq<seq<nat>>, comp: map<nat, nat>, i: nat)
    requires Good(net) && IsReverse(net, adj) && IsSccOrder(adj, roots, sccs, comp) && i < |sccs|
    ensures Uniform(net.sys, sccs[i]) && forall v :: v in sccs[i] ==> v < net.sys.n
    ensures |sccs[i]| > 1 ==> forall v :: v in sccs[i] ==> !IsAnon(net.sys.objVec, v)
  {
    hide Reach;
    var scc := sccs[i];
    assert Members(scc, i, comp) && Distinct(scc);
    forall q, v, w | Fits(net.sys, q) && v in scc && w in scc
      ensures v < |q| && w < |q| && q[v] == q[w]
    {
      assert Sound(net, q);
      BackwardBelow(net, adj, q, v, w);
      BackwardBelow(net, adj, q, w, v);
    }
    if |scc| > 1 {
      forall v: nat | v in scc
        ensures !IsAnon(net.sys.objVec, v)
      {
        var w := if v == scc[0] then scc[1] else scc[0];
        FirstEdge(adj, v, w);
        var u :| v < |adj| && u in adj[v];
        assert Edge(Copy, u, v) in net.edges;
      }
    }
  }

  /** Walking copy edges backwards, every solution only loses elements. */
  lemma BackwardBelow(net: Net, adj: Adj, q: seq<set<nat>>, v: nat, w: nat)
    requires Sized(net) && |q| >= net.sys.n && Sound(net, q) && IsReverse(net, adj) && v < net.sys.n && Reach(adj, v, w)
    ensures w < net.sys.n && q[w] <= q[v]
  {
    hide Reach;
    var X := set x | x in Numbers(net.sys.n) && q[x] <= q[v];
    forall x: nat, y: nat | x in X && x < |adj| && y in adj[x]
      ensures y in X
    {
      assert Edge(Copy, y, x) in net.edges;
    }
    ReachStays(adj, X, v, w);
  }

  lemma FirstEdge(adj: Adj, v: nat, w: nat)
    requires Reach(adj, v, w) && v != w
    ensures v < |adj| && exists u :: u in adj[v]
  {
    var p :| IsPath(adj, v, p, w);
    assert p != [] && p[0] in adj[v];
  }

  lemma WaveEnds(net: Net, sccs: seq<seq<nat>>, comp: map<nat, nat>)
    requires WavePass(net, comp, |sccs|) && Listed(sccs, comp) && Forward(net.sys.n, net.edges, comp)
    ensures CopiesDone(net)
  {
  }

  class AndersenWave {
    const graph: ConstraintGraph
    ghost var sys: System
    var ptsVec: seq<set<nat>>

    ghost function View(): Net
      reads this, graph
    {
      Net(sys, graph.rep, graph.edges, ptsVec)
    }

    ghost predicate Valid()
      reads this, graph
    {
      graph.Valid() && graph.objVec == sys.objVec && Good(View())
    }

    /** No node of the graph has been collapsed. */
    ghost predicate Uncollapsed()
      reads graph
    {
      forall v :: 0 <= v < |graph.rep| ==> graph.rep[v] == v
    }

    constructor ()
      ensures fresh(graph) && Valid() && Uncollapsed() && sys == System(0, [], {})
    {
      graph := new ConstraintGraph();
      sys, ptsVec := System(0, [], {}), [];
    }

    /** Build the constraint graph. */
    method AddBatch(batch: seq<Op>)
      requires Valid() && Uncollapsed() && OpsOk(sys, batch)
      modifies this, graph
      ensures Valid() && Uncollapsed() && sys == ApplyAll(old(sys), batch)
    {
      hide Good, Mirrored, Links, EdgesLive, ObjectsOk;
      var i := 0;
      while i < |batch|
        invariant i <= |batch| && Valid() && Uncollapsed() && sys == ApplyAll(old(sys), batch[..i])
      {
        assert batch[..i + 1][..i] == batch[..i];
        ghost var net := View();
        GoodSizes(net);
        match batch[i] {
          case NewPointer =>
            NodeKeeps(net);
            var _ := graph.AddNode();
            ptsVec := ptsVec + [{}];
          case NewObject =>
            ObjectKeeps(net);
            var _ := graph.AddObjNode();
            ptsVec := ptsVec + [{}, {|graph.objVec| - 1}];
          case NewConstraint(e) =>
            ConstraintKeeps(net, e);
            var _ := graph.AddConstraints(e.src, e.dst, e.kind);
        }
        sys := Apply(sys, batch[i]);
        i := i + 1;
      }
      assert batch[..i] == batch;
    }

    /** `processCopy` from a node to all its copy successors. */
    method Spread(node: nat, ghost comp: map<nat, nat>)
      requires Valid() && Forward(sys.n, graph.edges, comp) && node < |graph.rep| && node in comp
      modifies `ptsVec
      ensures Valid() && EdgesFrom(View(), node) && Grown(old(ptsVec), ptsVec, comp, comp[node])
      ensures forall v :: 0 <= v < |ptsVec| && Edge(Copy, node, v) !in graph.edges ==> ptsVec[v] == old(ptsVec)[v]
      ensures forall v :: 0 <= v < |ptsVec| && Edge(Copy, node, v) in graph.edges ==>
                v != node && ptsVec[v] == old(ptsVec)[v] + old(ptsVec)[node]
    {
      hide Good, Mirrored, Links, ObjectsOk, Forward;
      GoodSizes(View());
      hide Sized;
      MirroredPreds(|graph.rep|, graph.succCons, graph.predCons, graph.edges, Copy, node);
      ghost var E := graph.edges;
      assert forall v: nat :: Edge(Copy, node, v) in E ==> v < |graph.rep| && v != node;
      var todo := graph.succCons[Port(Copy, node)];
      ghost var all := todo;
      while todo != {}
        invariant todo <= all && Valid() && |ptsVec| == |old(ptsVec)|
        invariant forall v :: 0 <= v < |ptsVec| && v !in all - todo ==> ptsVec[v] == old(ptsVec)[v]
        invariant forall v :: v in all - todo ==> ptsVec[v] == old(ptsVec)[v] + old(ptsVec)[node]
      {
        var c :| c in todo;
        assert Edge(Copy, node, c) in E;
        UnionKeeps(View(), node, c);
        ptsVec := ptsVec[c := ptsVec[c] + ptsVec[node]];
        todo := todo - {c};
      }
      assert Grown(old(ptsVec), ptsVec, comp, comp[node]) by {
        SpreadGrown(old(ptsVec), ptsVec, sys.n, E, comp, node);
      }
    }

    /** `processCopy` between two nodes of one component. */
    method Join(a: nat, b: nat, ghost scc: seq<nat>)
      requires Valid() && Uniform(sys, scc) && a in scc && b in scc && a < |ptsVec| && b < |ptsVec| && !IsAnon(sys.objVec, b)
      modifies `ptsVec
      ensures Valid() && ptsVec == old(ptsVec)[b := old(ptsVec)[b] + old(ptsVec)[a]]
    {
      UnionImplied(View(), a, b);
      hide Good;
      ptsVec := ptsVec[b := ptsVec[b] + ptsVec[a]];
    }

    /** The sets of the cycle lie below `U`, which its front node has. */
    ghost predicate Gathered(scc: seq<nat>, U: set<nat>)
      reads this
    {
      scc != [] && scc[0] < |ptsVec| && ptsVec[scc[0]] == U && forall v :: v in scc ==> v < |ptsVec| && ptsVec[v] <= U
    }

    /** Bring one node of a cycle up to the front node and propagate from it. */
    method FlushMember(node: nat, scc: seq<nat>, ghost comp: map<nat, nat>, ghost i: nat, ghost U: set<nat>)
      requires Valid() && Forward(sys.n, graph.edges, comp) && Members(scc, i, comp) && Uniform(sys, scc) && Gathered(scc, U)
      requires node in scc && node < |graph.rep| && !IsAnon(sys.objVec, node)
      modifies `ptsVec
      ensures Valid() && Gathered(scc, U) && Grown(old(ptsVec), ptsVec, comp, i)
      ensures node < |ptsVec| && ptsVec[node] == U && EdgesFrom(View(), node)
    {
      hide Good, Mirrored, Links, ObjectsOk, EdgesLive, IsAnon, EdgesFrom;
      assert scc[0] in scc;
      GoodSizes(View());
      hide Sized;
      Join(scc[0], node, scc);
      Spread(node, comp);
    }

    /** The second loop over a cycle: all its nodes get the same set and propagate it. */
    method FlushCycle(scc: seq<nat>, ghost comp: map<nat, nat>, ghost i: nat, ghost U: set<nat>)
      requires Valid() && Forward(sys.n, graph.edges, comp) && Members(scc, i, comp) && Uniform(sys, scc) && Gathered(scc, U)
      requires forall v :: v in scc ==> v < |graph.rep| && !IsAnon(sys.objVec, v)
      modifies `ptsVec
      ensures Valid() && Gathered(scc, U) && Grown(old(ptsVec), ptsVec, comp, i)
      ensures forall j :: 1 <= j < |scc| ==> scc[j] < |ptsVec| && ptsVec[scc[j]] == U && EdgesFrom(View(), scc[j])
    {
      hide Good, Mirrored, Links, ObjectsOk, EdgesLive, IsAnon, EdgesFrom, Uniform, Forward, Members;
      GoodSizes(View());
      hide Sized;
      var k := 1;
      while k < |scc|
        invariant 1 <= k <= |scc| && Valid() && Gathered(scc, U) && Grown(old(ptsVec), ptsVec, comp, i)
        invariant forall j :: 1 <= j < k ==> scc[j] in scc && scc[j] < |ptsVec| && ptsVec[scc[j]] == U && EdgesFrom(View(), scc[j])
      {
        assert scc[k] in scc;
        ghost var net := View();
        FlushMember(scc[k], scc, comp, i, U);
        forall j | 1 <= j < k
          ensures ptsVec[scc[j]] == U && EdgesFrom(View(), scc[j])
        {
          EdgesFromGrow(net, ptsVec, comp, i, scc[j]);
        }
        k := k + 1;
      }
    }

    /** The body of the loop over the components. */
    method ProcessComponent(scc: seq<nat>, ghost comp: map<nat, nat>, ghost i: nat)
      requires Valid() && Forward(sys.n, graph.edges, comp) && WavePass(View(), comp, i) && scc != [] && Members(scc, i, comp) && Uniform(sys, scc)
      requires forall v :: v in scc ==> v < |graph.rep|
      requires |scc| > 1 ==> forall v :: v in scc ==> !IsAnon(sys.objVec, v)
      modifies `ptsVec
      ensures Valid() && Forward(sys.n, graph.edges, comp) && WavePass(View(), comp, i + 1)
      ensures forall v :: v in scc ==> v < |ptsVec| && scc[0] < |ptsVec| && ptsVec[v] == ptsVec[scc[0]]
    {
      hide Good, Mirrored, Links, ObjectsOk, EdgesLive, WavePass, IsAnon, EdgesFrom, Forward, Uniform;
      GoodSizes(View());
      hide Sized;
      ghost var net := View();
      assert scc[0] in scc;
      if |scc| > 1 {
        GatherAtFront(scc, comp, i);
        FlushCycle(scc, comp, i, ptsVec[scc[0]]);
      }
      ghost var net1 := View();
      Spread(scc[0], comp);
      GrownTrans(net.pts, net1.pts, ptsVec, comp, i);
      GrownPass(net, ptsVec, comp, i);
      forall v | v in comp && comp[v] == i
        ensures EdgesFrom(View(), v)
      {
        assert v in scc;
        var j :| 0 <= j < |scc| && scc[j] == v;
        if j > 0 && v != scc[0] {
          EdgesFromGrow(net1, ptsVec, comp, i, v);
        }
      }
      ComponentDone(View(), comp, i);
    }

    /** The first loop over a cycle: its front node takes in all sets of the cycle. */
    method GatherAtFront(scc: seq<nat>, ghost comp: map<nat, nat>, ghost i: nat)
      requires Valid() && |scc| > 1 && Uniform(sys, scc) && Members(scc, i, comp)
      requires forall v :: v in scc ==> v < |graph.rep| && !IsAnon(sys.objVec, v)
      modifies `ptsVec
      ensures Valid() && Grown(old(ptsVec), ptsVec, comp, i)
      ensures scc[0] < |ptsVec| && Gathered(scc, ptsVec[scc[0]])
    {
      hide Good, Mirrored, Links, ObjectsOk, EdgesLive, IsAnon;
      GoodSizes(View());
      hide Sized;
      var front, k := scc[0], 1;
      assert front in scc;
      while k < |scc|
        invariant 1 <= k <= |scc| && Valid() && Grown(old(ptsVec), ptsVec, comp, i)
        invariant forall j :: 0 <= j < k ==> scc[j] in scc && ptsVec[scc[j]] <= ptsVec[front]
      {
        assert scc[k] in scc;
        Join(scc[k], front, scc);
        k := k + 1;
      }
    }

    /** One pass over all components, predecessors first: afterwards every copy edge is satisfied. */
    method CopyPhase()
      requires Valid() && Uncollapsed() && sys.n < DONE
      modifies `ptsVec
      ensures Valid() && CopiesDone(View())
    {
      hide Good, Mirrored, Links, ObjectsOk, EdgesLive, IsAnon, Emitted, CopiesDone;
      GoodSizes(View());
      hide Sized;
      var n := |ptsVec|;
      var adj := CopyParents();
      var none := seq(n, _ => false);
      var sccs, comp := AllSccs(adj, none, none);
      OrderFacts(View(), adj, Roots(none, none), sccs, comp);
      hide IsSccOrder, Forward, WavePass, Members;
      var i := 0;
      while i < |sccs|
        invariant i <= |sccs| && Valid() && WavePass(View(), comp, i)
      {
        assert sccs[i] != [] && Distinct(sccs[i]) && Members(sccs[i], i, comp);
        ComponentFacts(View(), adj, Roots(none, none), sccs, comp, i);
        ProcessComponent(sccs[i], comp, i);
        i := i + 1;
      }
      WaveEnds(View(), sccs, comp);
    }

    /** The copy predecessors of every node. */
    method CopyParents() returns (adj: Adj)
      requires graph.Valid()
      ensures |adj| == |graph.rep| && IsGraph(adj)
      ensures forall v: nat, b: nat :: v < |adj| ==> (Edge(Copy, b, v) in graph.edges <==> b in adj[v])
    {
      var n := |graph.superNode|;
      assert forall v :: 0 <= v < n ==> Port(Copy, v).node == v;
      adj := seq(n, v requires 0 <= v < n && Port(Copy, v) in graph.predCons reads graph => graph.predCons[Port(Copy, v)]);
      forall v: nat, b: nat | v < n
        ensures Edge(Copy, b, v) in graph.edges <==> b in adj[v]
      {
        MirroredPreds(n, graph.succCons, graph.predCons, graph.edges, Copy, v);
      }
      forall v: nat, b: nat | v < n && b in adj[v]
        ensures b < n
      {
        assert Edge(Copy, b, v) in graph.edges;
      }
    }

    /** Add one derived copy edge; nothing is recorded. */
    method LinkObject(a: nat, b: nat, ghost e: Edge, ghost o: nat) returns (added: bool)
      requires Valid() && e in graph.edges && (e.kind == Load || e.kind == Store)
      requires Pointer(e) < |ptsVec| && o in ptsVec[Pointer(e)]
      requires o < |sys.objVec| && sys.objVec[o] < |graph.rep| && Edge(Copy, a, b) == Derived(sys.objVec, graph.rep, e, o)
      modifies graph`succCons, graph`predCons, graph`edges
      ensures Valid() && Present(graph.edges, Edge(Copy, a, b)) && added == (graph.edges != old(graph.edges))
      ensures graph.edges == if SelfCopy(Edge(Copy, a, b)) then old(graph.edges) else old(graph.edges) + {Edge(Copy, a, b)}
    {
      hide Good, Mirrored, Links, EdgesLive, ObjectsOk, IsAnon;
      GoodSizes(View());
      DerivedOk(View(), e, o);
      if a != b {
        DeriveKeeps(View(), e, o);
      }
      added := graph.AddConstraints(a, b, Copy);
    }

    /** `processLoad` or `processStore`, whichever `e` is: dereference every object behind it. */
    method ProcessDeref(e: Edge) returns (changed: bool)
      requires Valid() && e in graph.edges && (e.kind == Load || e.kind == Store) && Pointer(e) < |ptsVec|
      modifies graph`succCons, graph`predCons, graph`edges
      ensures Valid() && EdgeExpanded(View(), e) && changed == (graph.edges != old(graph.edges))
      ensures old(graph.edges) <= graph.edges && forall f :: f in graph.edges - old(graph.edges) ==> f.kind == Copy
    {
      hide Good, Mirrored, Links, EdgesLive;
      GoodPoints(View(), Pointer(e));
      changed := false;
      var todo := ptsVec[Pointer(e)];
      ghost var all := todo;
      while todo != {}
        invariant todo <= all && Valid() && changed == (graph.edges != old(graph.edges))
        invariant forall o :: o in all - todo ==> Present(graph.edges, Derived(sys.objVec, graph.rep, e, o))
        invariant old(graph.edges) <= graph.edges && forall f :: f in graph.edges - old(graph.edges) ==> f.kind == Copy
      {
        var o :| o in todo;
        var node := graph.GetSuperNode(graph.objVec[o]);
        var added := LinkObject(if e.kind == Load then node else e.src, if e.kind == Load then e.dst else node, e, o);
        changed := changed || added;
        todo := todo - {o};
      }
    }

    /** Dereference through all edges of one kind that leave `node`. */
    method DerefEdges(node: nat, kind: Kind) returns (changed: bool)
      requires Valid() && node < |graph.rep| && (kind == Load || kind == Store)
      modifies graph`succCons, graph`predCons, graph`edges
      ensures Valid() && changed == (graph.edges != old(graph.edges))
      ensures old(graph.edges) <= graph.edges && forall f :: f in graph.edges - old(graph.edges) ==> f.kind == Copy
      ensures forall d :: Edge(kind, node, d) in graph.edges ==> EdgeExpanded(View(), Edge(kind, node, d))
    {
      hide Good, Mirrored, Links, EdgeExpanded;
      GoodSizes(View());
      hide Sized;
      MirroredPreds(|graph.rep|, graph.succCons, graph.predCons, graph.edges, kind, node);
      changed := false;
      ghost var E := graph.edges;
      var todo := graph.succCons[Port(kind, node)];
      ghost var all := todo;
      while todo != {}
        invariant todo <= all && Valid() && changed == (graph.edges != E)
        invariant E <= graph.edges && forall f :: f in graph.edges - E ==> f.kind == Copy
        invariant forall d :: d in all - todo ==> EdgeExpanded(View(), Edge(kind, node, d))
      {
        var d :| d in todo;
        assert Edge(kind, node, d) in E;
        ghost var net := View();
        var c := ProcessDeref(Edge(kind, node, d));
        DerefsGrow(net, graph.edges);
        changed := changed || c;
        todo := todo - {d};
      }
    }

    /** The load and store edges of every node, in node order. */
    method DerefPhase() returns (changed: bool)
      requires Valid() && Uncollapsed()
      modifies graph`succCons, graph`predCons, graph`edges
      ensures Valid() && AllExpanded(View()) && changed == (graph.edges != old(graph.edges))
      ensures old(graph.edges) <= graph.edges && forall f :: f in graph.edges - old(graph.edges) ==> f.kind == Copy
    {
      hide Good, Mirrored, Links, EdgesLive, EdgeExpanded, Expanded;
      GoodSizes(View());
      hide Sized;
      changed := false;
      ghost var E := graph.edges;
      var n, id := |ptsVec|, 0;
      while id < n
        invariant id <= n && Valid() && changed == (graph.edges != E)
        invariant E <= graph.edges && forall f :: f in graph.edges - E ==> f.kind == Copy
        invariant forall e :: e in graph.edges && (e.kind == Load || e.kind == Store) && e.src < id ==> EdgeExpanded(View(), e)
      {
        ghost var net := View();
        var c := DerefEdges(id, Load);
        ghost var net1 := View();
        DerefsGrow(net, graph.edges);
        var d := DerefEdges(id, Store);
        DerefsGrow(net1, graph.edges);
        forall e | e in graph.edges && (e.kind == Load || e.kind == Store) && e.src < id + 1
          ensures EdgeExpanded(View(), e)
        {
          assert e in net.edges && e == Edge(e.kind, e.src, e.dst);
        }
        changed := changed || c || d;
        id := id + 1;
      }
      ExpandedEverywhere(View());
    }

    /** `runSolver`: the least solution of the constraints. */
    method RunSolver()
      requires Valid() && Uncollapsed() && sys.n < DONE
      modifies this`ptsVec, graph`succCons, graph`predCons, graph`edges
      ensures Valid() && IsLeast(sys, Resolved(View()))
      ensures Resolved(View()) == ptsVec
    {
      hide Good, Mirrored, Links, CopiesDone, AllExpanded, Absent, IsLeast;
      var changed := true;
      while changed
        invariant Valid()
        invariant !changed ==> CopiesDone(View()) && Sized(View()) && AllExpanded(View())
        decreases changed, Absent(sys.n, graph.edges)
      {
        CopyPhase();
        GoodSizes(View());
        ghost var E := graph.edges;
        changed := DerefPhase();
        GoodSizes(View());
        if changed {
          AbsentShrinks(graph.rep, E, graph.edges);
        }
      }
      GoodSizes(View());
      QuietIsLeast(View());
    }
  }

  lemma ExpandedEverywhere(net: Net)
    requires Good(net) && forall e :: e in net.edges && (e.kind == Load || e.kind == Store) && e.src < net.sys.n ==> EdgeExpanded(net, e)
    ensures Sized(net) && AllExpanded(net)
  {
    GoodSizes(net);
    forall v | 0 <= v < net.sys.n && net.rep[v] == v
      ensures Expanded(net, v)
    {
      ExpandedByEdges(net, v);
    }
  }
}
