/**
 * What every step of the solvers keeps, and why a quiet state is the least solution.
 * A state is the constraint system as it was given, the representative of every node, the edges
 * between representatives and the points-to sets.
 */
module SolverInvariant {
  import opened ConstraintSystems
  import opened ConstraintGraphs

  datatype Net = Net(sys: System, rep: seq<nat>, edges: set<Edge>, pts: seq<set<nat>>)

  ghost predicate RepsOk(n: nat, rep: seq<nat>) {
    |rep| == n && forall v :: 0 <= v < n ==> rep[v] < n && rep[rep[v]] == rep[v]
  }

  /** Anonymous nodes stand for themselves only. */
  ghost predicate AnonOk(objVec: seq<nat>, rep: seq<nat>) {
    forall v :: 0 <= v < |rep| && (IsAnon(objVec, v) || IsAnon(objVec, rep[v])) ==> rep[v] == v
  }

  ghost predicate NoneIntoAnon(objVec: seq<nat>, edges: set<Edge>) {
    forall e :: e in edges && e.kind != AddrOf ==> !IsAnon(objVec, e.dst)
  }

  ghost predicate Wired(sys: System, rep: seq<nat>, edges: set<Edge>) {
    && WellFormed(sys) && RepsOk(sys.n, rep) && EdgesLive(rep, edges)
    && NoneIntoAnon(sys.objVec, edges) && AnonOk(sys.objVec, rep)
  }

  /** Anonymous nodes point to their object only, and all sets hold known objects. */
  ghost predicate Pointed(sys: System, pts: seq<set<nat>>) {
    && |pts| == sys.n
    && (forall o :: 0 <= o < |sys.objVec| && sys.objVec[o] + 1 < |pts| ==> pts[sys.objVec[o] + 1] == {o})
    && (forall v, o :: 0 <= v < |pts| && o in pts[v] ==> o < |sys.objVec|)
  }

  ghost predicate Sized(net: Net) {
    Wired(net.sys, net.rep, net.edges) && Pointed(net.sys, net.pts)
  }

  /** The graph has the edge that represents constraint `e`, or needs none. */
  ghost predicate Kept(rep: seq<nat>, edges: set<Edge>, e: Edge) {
    && e.src < |rep| && e.dst < |rep| && (e.kind == AddrOf ==> e.src + 1 < |rep|)
    && (SelfCopy(Stored(rep, e)) || Stored(rep, e) in edges)
  }

  ghost predicate Reflects(net: Net) {
    forall e :: e in net.sys.cons ==> Kept(net.rep, net.edges, e)
  }

  /** Every load and store edge represents a constraint that was added. */
  ghost predicate Justified(net: Net) {
    forall f :: f in net.edges && (f.kind == Load || f.kind == Store) ==> HasSource(net.sys.cons, net.rep, f)
  }

  ghost predicate HasSource(cons: set<Edge>, rep: seq<nat>, f: Edge) {
    exists e :: e in cons && IsSource(rep, e, f)
  }

  ghost predicate IsSource(rep: seq<nat>, e: Edge, f: Edge) {
    e.kind == f.kind != AddrOf && e.src < |rep| && e.dst < |rep| && Stored(rep, e) == f
  }

  /** The state never claims more than the solution `q`. */
  ghost predicate Sound(net: Net, q: seq<set<nat>>)
    requires Sized(net) && |q| >= net.sys.n
  {
    && (forall v :: 0 <= v < net.sys.n ==> net.pts[v] <= q[v] && q[net.rep[v]] == q[v])
    && (forall e :: e in net.edges && e.kind == Copy ==> q[e.src] <= q[e.dst])
  }

  ghost predicate AllSound(net: Net)
    requires Sized(net)
  {
    forall q :: Fits(net.sys, q) ==> Sound(net, q)
  }

  ghost predicate Good(net: Net) {
    Sized(net) && Reflects(net) && Justified(net) && AllSound(net)
  }

  ghost predicate Satisfied(pts: seq<set<nat>>, a: nat, b: nat) {
    a < |pts| && b < |pts| && pts[a] <= pts[b]
  }

  ghost predicate CopiesDone(net: Net) {
    forall e :: e in net.edges && e.kind == Copy ==> Satisfied(net.pts, e.src, e.dst)
  }

  /** The copy edge that dereferencing object `o` through the load or store edge `e` asks for. */
  function Derived(objVec: seq<nat>, rep: seq<nat>, e: Edge, o: nat): Edge
    requires o < |objVec| && objVec[o] < |rep|
  {
    if e.kind == Load then Edge(Copy, rep[objVec[o]], e.dst) else Edge(Copy, e.src, rep[objVec[o]])
  }

  /** The pointer that a load or store edge dereferences. */
  function Pointer(e: Edge): nat {
    if e.kind == Load then e.src else e.dst
  }

  ghost predicate Present(edges: set<Edge>, e: Edge) {
    SelfCopy(e) || e in edges
  }

  /** Every object `v` points to has been dereferenced through every load and store edge at `v`. */
  ghost predicate Expanded(net: Net, v: nat)
    requires Sized(net) && v < net.sys.n
  {
    forall e, o :: e in net.edges && (e.kind == Load || e.kind == Store) && Pointer(e) == v && o in net.pts[v]
      ==> Present(net.edges, Derived(net.sys.objVec, net.rep, e, o))
  }

  /** Every object behind the load or store edge `e` has been dereferenced through it. */
  ghost predicate EdgeExpanded(net: Net, e: Edge) {
    && Pointer(e) < |net.pts|
    && forall o :: o in net.pts[Pointer(e)] && o < |net.sys.objVec| && net.sys.objVec[o] < |net.rep|
         ==> Present(net.edges, Derived(net.sys.objVec, net.rep, e, o))
  }

  lemma ExpandedByEdges(net: Net, v: nat)
    requires Sized(net) && v < net.sys.n
    requires forall e :: e in net.edges && (e.kind == Load || e.kind == Store) && Pointer(e) == v ==> EdgeExpanded(net, e)
    ensures Expanded(net, v)
  {
  }

  lemma ExpandedGrows(net: Net, E': set<Edge>, v: nat)
    requires Sized(net) && Sized(net.(edges := E')) && v < net.sys.n && Expanded(net, v) && net.edges <= E'
    requires forall e :: e in E' - net.edges ==> e.kind == Copy
    ensures Expanded(net.(edges := E'), v)
  {
  }

  ghost predicate AllExpanded(net: Net)
    requires Sized(net)
  {
    forall v :: 0 <= v < net.sys.n && net.rep[v] == v ==> Expanded(net, v)
  }

  /** The points-to set of every node, read through its representative. */
  function Resolved(net: Net): (r: seq<set<nat>>)
    requires RepsOk(net.sys.n, net.rep) && |net.pts| == net.sys.n
    ensures |r| == net.sys.n && forall v :: 0 <= v < net.sys.n ==> r[v] == net.pts[net.rep[v]]
  {
    seq(net.sys.n, v requires 0 <= v < net.sys.n => net.pts[net.rep[v]])
  }

  lemma ResolvedHolds(net: Net, e: Edge)
    requires Sized(net) && Reflects(net) && CopiesDone(net) && AllExpanded(net) && e in net.sys.cons
    ensures Holds(net.sys.objVec, Resolved(net), e)
  {
    var q, objVec, rep := Resolved(net), net.sys.objVec, net.rep;
    assert EdgeOk(net.sys.n, objVec, e) && Kept(rep, net.edges, e);
    match e.kind
    case AddrOf =>
      forall o | 0 <= o < |objVec| && objVec[o] == e.src
        ensures o in q[e.dst]
      {
        assert IsAnon(objVec, e.src + 1);
        assert rep[e.src + 1] == e.src + 1 by {
          AnonAlone(net, o);
        }
        assert Satisfied(net.pts, e.src + 1, rep[e.dst]);
      }
    case Copy =>
      assert Satisfied(net.pts, rep[e.src], rep[e.dst]);
    case Load =>
      var f := Stored(rep, e);
      forall o | o in q[e.src] && o < |objVec|
        ensures q[objVec[o]] <= q[e.dst]
      {
        assert Expanded(net, rep[e.src]);
        assert Present(net.edges, Derived(objVec, rep, f, o));
      }
    case Store =>
      var f := Stored(rep, e);
      forall o | o in q[e.dst] && o < |objVec|
        ensures q[e.src] <= q[objVec[o]]
      {
        assert Expanded(net, rep[e.dst]);
        assert Present(net.edges, Derived(objVec, rep, f, o));
      }
  }

  lemma AnonAlone(net: Net, o: nat)
    requires Sized(net) && o < |net.sys.objVec|
    ensures net.rep[net.sys.objVec[o] + 1] == net.sys.objVec[o] + 1
  {
    assert IsAnon(net.sys.objVec, net.sys.objVec[o] + 1);
  }

  /** A quiet state is the least solution of the constraints as they were given. */
  lemma QuietIsLeast(net: Net)
    requires Good(net) && CopiesDone(net) && AllExpanded(net)
    ensures IsLeast(net.sys, Resolved(net))
  {
    var r := Resolved(net);
    assert IsSolution(net.sys, r) by {
      forall e | e in net.sys.cons
        ensures Holds(net.sys.objVec, r, e)
      {
        ResolvedHolds(net, e);
      }
      forall o | 0 <= o < |net.sys.objVec|
        ensures o in r[net.sys.objVec[o] + 1]
      {
        AnonAlone(net, o);
      }
    }
    forall q | IsSolution(net.sys, q)
      ensures Below(r, q)
    {
      TrimFits(net.sys, q);
      assert Sound(net, Trim(net.sys.objVec, q));
    }
  }

  lemma GoodSizes(net: Net)
    requires Good(net)
    ensures |net.rep| == |net.pts| == net.sys.n && RepsOk(net.sys.n, net.rep) && Sized(net)
  {
  }

  /** An object node is never anonymous, and neither is its representative. */
  lemma ObjectRep(net: Net, o: nat)
    requires Sized(net) && o < |net.sys.objVec|
    ensures !IsAnon(net.sys.objVec, net.rep[net.sys.objVec[o]])
  {
    var x := net.sys.objVec[o];
    assert forall p :: 0 <= p < |net.sys.objVec| ==> net.sys.objVec[p] + 1 != x;
    assert !IsAnon(net.sys.objVec, x);
  }

  lemma UnionPointed(sys: System, pts: seq<set<nat>>, a: nat, b: nat)
    requires Pointed(sys, pts) && !IsAnon(sys.objVec, b) && a < |pts| && b < |pts|
    ensures Pointed(sys, pts[b := pts[b] + pts[a]])
  {
    assert forall o :: 0 <= o < |sys.objVec| ==> sys.objVec[o] + 1 != b;
  }

  /** The objects a node points to have nodes. */
  lemma GoodPoints(net: Net, v: nat)
    requires Good(net) && v < |net.pts|
    ensures forall o :: o in net.pts[v] ==> o < |net.sys.objVec| && net.sys.objVec[o] < |net.rep|
  {
  }

  /** The copy edge a dereference asks for may be added. */
  lemma DerivedOk(net: Net, e: Edge, o: nat)
    requires Good(net) && e in net.edges && (e.kind == Load || e.kind == Store) && o < |net.sys.objVec|
    ensures |net.rep| == net.sys.n && net.sys.objVec[o] < |net.rep|
    ensures var d := Derived(net.sys.objVec, net.rep, e, o);
      EdgeOk(net.sys.n, net.sys.objVec, d) && net.rep[d.src] == d.src && net.rep[d.dst] == d.dst
  {
    ObjectRep(net, o);
  }

  /** Moving a set to a node that every solution puts above it keeps the state good. */
  lemma UnionImplied(net: Net, a: nat, b: nat)
    requires Good(net) && a < |net.pts| && b < |net.pts| && !IsAnon(net.sys.objVec, b)
    requires forall q :: Fits(net.sys, q) ==> q[a] <= q[b]
    ensures Good(net.(pts := net.pts[b := net.pts[b] + net.pts[a]]))
  {
    hide IsAnon, AnonOk, NoneIntoAnon;
    UnionPointed(net.sys, net.pts, a, b);
    hide Pointed;
    var net' := net.(pts := net.pts[b := net.pts[b] + net.pts[a]]);
    forall q | Fits(net.sys, q)
      ensures Sound(net', q)
    {
      assert Sound(net, q);
    }
  }

  /** Propagating along a copy edge keeps the state good. */
  lemma UnionKeeps(net: Net, a: nat, b: nat)
    requires Good(net) && Edge(Copy, a, b) in net.edges
    ensures a < |net.pts| && b < |net.pts| && Good(net.(pts := net.pts[b := net.pts[b] + net.pts[a]]))
  {
    forall q | Fits(net.sys, q)
      ensures q[a] <= q[b]
    {
      assert Sound(net, q);
    }
    UnionImplied(net, a, b);
  }

  /** Adding the copy edge derived from a load or store keeps the state good. */
  lemma DeriveKeeps(net: Net, e: Edge, o: nat)
    requires Good(net) && e in net.edges && (e.kind == Load || e.kind == Store) && Pointer(e) < net.sys.n && o in net.pts[Pointer(e)]
    requires !SelfCopy(Derived(net.sys.objVec, net.rep, e, o))
    ensures Good(net.(edges := net.edges + {Derived(net.sys.objVec, net.rep, e, o)}))
  {
    var d := Derived(net.sys.objVec, net.rep, e, o);
    var net' := net.(edges := net.edges + {d});
    ObjectRep(net, o);
    assert Sized(net');
    assert Reflects(net') by {
      forall c | c in net.sys.cons
        ensures Kept(net'.rep, net'.edges, c)
      {
        assert Kept(net.rep, net.edges, c);
      }
    }
    forall q | Fits(net.sys, q)
      ensures Sound(net', q)
    {
      assert Sound(net, q);
      assert HasSource(net.sys.cons, net.rep, e);
      var c :| c in net.sys.cons && IsSource(net.rep, c, e);
      assert Holds(net.sys.objVec, q, c);
      assert q[d.src] <= q[d.dst];
    }
  }

  /** A solution gives all nodes of `scc` the same set. */
  ghost predicate Agrees(q: seq<set<nat>>, C: set<nat>, s: nat) {
    s < |q| && forall v :: v in C ==> v < |q| && q[v] == q[s]
  }

  /** `pts` after the sets of the nodes in `C` have moved into `s`. */
  ghost predicate PtsMerged(pts: seq<set<nat>>, pts': seq<set<nat>>, C: set<nat>, s: nat) {
    && |pts'| == |pts| && s < |pts| && pts[s] <= pts'[s]
    && (forall v :: v in C ==> v < |pts| && pts[v] <= pts'[s] && pts'[v] == {})
    && (forall v :: 0 <= v < |pts| && v != s && v !in C ==> pts'[v] == pts[v])
    && (forall o :: o in pts'[s] ==> exists v :: (v == s || v in C) && v < |pts| && o in pts[v])
  }

  lemma CollapsePointed(sys: System, pts: seq<set<nat>>, C: set<nat>, s: nat, pts': seq<set<nat>>)
    requires Pointed(sys, pts) && PtsMerged(pts, pts', C, s)
    requires forall v :: v in C + {s} ==> !IsAnon(sys.objVec, v)
    ensures Pointed(sys, pts')
  {
    assert s in C + {s} && forall v :: v in C ==> v in C + {s};
    forall o | 0 <= o < |sys.objVec| && sys.objVec[o] + 1 < |pts'|
      ensures pts'[sys.objVec[o] + 1] == {o}
    {
      assert IsAnon(sys.objVec, sys.objVec[o] + 1);
    }
  }

  lemma CollapseWired(sys: System, rep: seq<nat>, edges: set<Edge>, C: set<nat>, s: nat)
    requires Wired(sys, rep, edges) && s !in C
    requires forall v :: v in C + {s} ==> v < sys.n && rep[v] == v && !IsAnon(sys.objVec, v)
    ensures Wired(sys, Redirect(rep, C, s), Quotient(edges, C, s))
  {
    hide IsAnon, WellFormed;
    var E', rep' := Quotient(edges, C, s), Redirect(rep, C, s);
    assert s in C + {s} && forall v :: v in C ==> v in C + {s};
    assert RepsOk(sys.n, rep');
    assert AnonOk(sys.objVec, rep') by {
      forall v | 0 <= v < |rep| && (IsAnon(sys.objVec, v) || IsAnon(sys.objVec, rep'[v]))
        ensures rep'[v] == v
      {
        assert rep'[v] == Merge(C, s, rep[v]);
      }
    }
    forall e | e in E'
      ensures e.src < |rep| && e.dst < |rep| && rep'[e.src] == e.src && rep'[e.dst] == e.dst && !SelfCopy(e)
      ensures e.kind != AddrOf ==> !IsAnon(sys.objVec, e.dst)
    {
      var f :| f in edges && !SelfCopy(MergeEdge(C, s, f)) && e == MergeEdge(C, s, f);
    }
  }

  lemma CollapseReflects(net: Net, C: set<nat>, s: nat)
    requires RepsOk(net.sys.n, net.rep) && Reflects(net)
    ensures forall e :: e in net.sys.cons ==> Kept(Redirect(net.rep, C, s), Quotient(net.edges, C, s), e)
  {
    forall e | e in net.sys.cons
      ensures Kept(Redirect(net.rep, C, s), Quotient(net.edges, C, s), e)
    {
      assert Kept(net.rep, net.edges, e);
      assert Stored(Redirect(net.rep, C, s), e) == MergeEdge(C, s, Stored(net.rep, e));
    }
  }

  lemma CollapseJustified(net: Net, C: set<nat>, s: nat)
    requires RepsOk(net.sys.n, net.rep) && Justified(net)
    ensures forall f :: f in Quotient(net.edges, C, s) && (f.kind == Load || f.kind == Store)
              ==> HasSource(net.sys.cons, Redirect(net.rep, C, s), f)
  {
    forall f | f in Quotient(net.edges, C, s) && (f.kind == Load || f.kind == Store)
      ensures HasSource(net.sys.cons, Redirect(net.rep, C, s), f)
    {
      var g :| g in net.edges && !SelfCopy(MergeEdge(C, s, g)) && f == MergeEdge(C, s, g);
      assert HasSource(net.sys.cons, net.rep, g);
      var e :| e in net.sys.cons && IsSource(net.rep, e, g);
      assert IsSource(Redirect(net.rep, C, s), e, f);
    }
  }

  lemma CollapseSound(net: Net, C: set<nat>, s: nat, pts': seq<set<nat>>, q: seq<set<nat>>)
    requires Sized(net) && s !in C && PtsMerged(net.pts, pts', C, s) && |q| >= net.sys.n && Sound(net, q) && Agrees(q, C, s)
    requires var net' := Net(net.sys, Redirect(net.rep, C, s), Quotient(net.edges, C, s), pts'); Sized(net')
    ensures Sound(Net(net.sys, Redirect(net.rep, C, s), Quotient(net.edges, C, s), pts'), q)
  {
    var net' := Net(net.sys, Redirect(net.rep, C, s), Quotient(net.edges, C, s), pts');
    forall e | e in net'.edges && e.kind == Copy
      ensures q[e.src] <= q[e.dst]
    {
      var f :| f in net.edges && !SelfCopy(MergeEdge(C, s, f)) && e == MergeEdge(C, s, f);
      assert q[f.src] <= q[f.dst];
      assert q[e.src] == q[f.src] && q[e.dst] == q[f.dst];
    }
    forall v | 0 <= v < net.sys.n
      ensures pts'[v] <= q[v] && q[net'.rep[v]] == q[v]
    {
      assert net.pts[v] <= q[v] && q[net.rep[v]] == q[v];
      if v == s {
        forall o | o in pts'[s]
          ensures o in q[s]
        {
          var w :| (w == s || w in C) && w < |net.pts| && o in net.pts[w];
          assert net.pts[w] <= q[w];
        }
      }
    }
  }

  /** Collapsing nodes that every solution treats alike keeps the state good. */
  lemma CollapseKeeps(net: Net, C: set<nat>, s: nat, pts': seq<set<nat>>)
    requires Good(net) && s !in C && PtsMerged(net.pts, pts', C, s)
    requires forall v :: v in C + {s} ==> v < net.sys.n && net.rep[v] == v && !IsAnon(net.sys.objVec, v)
    requires forall q :: Fits(net.sys, q) ==> Agrees(q, C, s)
    ensures Good(Net(net.sys, Redirect(net.rep, C, s), Quotient(net.edges, C, s), pts'))
  {
    CollapsePointed(net.sys, net.pts, C, s, pts');
    CollapseWired(net.sys, net.rep, net.edges, C, s);
    CollapseReflects(net, C, s);
    CollapseJustified(net, C, s);
    forall q | Fits(net.sys, q)
      ensures Sound(Net(net.sys, Redirect(net.rep, C, s), Quotient(net.edges, C, s), pts'), q)
    {
      CollapseSound(net, C, s, pts', q);
    }
  }

  /** Nodes without edges change nothing about the constraints already there. */
  lemma GrowKeeps(net: Net, net': Net)
    requires Reflects(net) && Justified(net) && net.rep <= net'.rep && net'.sys.cons == net.sys.cons
    requires net.edges <= net'.edges && forall f :: f in net'.edges - net.edges ==> f.kind == AddrOf
    ensures Reflects(net') && Justified(net')
  {
    assert forall v :: 0 <= v < |net.rep| ==> net'.rep[v] == net.rep[v];
    forall e | e in net'.sys.cons
      ensures Kept(net'.rep, net'.edges, e)
    {
      assert Kept(net.rep, net.edges, e);
    }
    forall f | f in net'.edges && (f.kind == Load || f.kind == Store)
      ensures HasSource(net'.sys.cons, net'.rep, f)
    {
      assert HasSource(net.sys.cons, net.rep, f);
      var e :| e in net.sys.cons && IsSource(net.rep, e, f);
      assert IsSource(net'.rep, e, f);
    }
  }

  /** A new pointer node starts with an empty set and no edges. */
  lemma NodeKeeps(net: Net)
    requires Good(net)
    ensures Good(Net(net.sys.(n := net.sys.n + 1), net.rep + [net.sys.n], net.edges, net.pts + [{}]))
  {
    var sys' := net.sys.(n := net.sys.n + 1);
    var net' := Net(sys', net.rep + [net.sys.n], net.edges, net.pts + [{}]);
    assert forall e :: EdgeOk(net.sys.n, net.sys.objVec, e) ==> EdgeOk(sys'.n, sys'.objVec, e);
    assert Wired(sys', net'.rep, net'.edges) && Pointed(sys', net'.pts);
    GrowKeeps(net, net');
    forall q | Fits(sys', q)
      ensures Sound(net', q)
    {
      FitsShrinks(net.sys, sys', q);
      assert Sound(net, q);
    }
  }

  lemma FitsShrinks(sys: System, sys': System, q: seq<set<nat>>)
    requires sys.n <= sys'.n && sys.objVec <= sys'.objVec && sys.cons <= sys'.cons
    requires WellFormed(sys) && Fits(sys', q)
    ensures Fits(sys, q)
  {
    SolutionShrinks(sys, sys', q);
    assert forall o :: 0 <= o < |sys.objVec| ==> sys.objVec[o] == sys'.objVec[o];
  }

  lemma ObjectAnon(sys: System, v: nat)
    requires WellFormed(sys)
    ensures IsAnon(sys.objVec + [sys.n], v) <==> IsAnon(sys.objVec, v) || v == sys.n + 1
  {
    var objVec' := sys.objVec + [sys.n];
    if IsAnon(sys.objVec, v) {
      var o :| 0 <= o < |sys.objVec| && sys.objVec[o] + 1 == v;
      assert objVec'[o] + 1 == v;
    }
    if v == sys.n + 1 {
      assert objVec'[|sys.objVec|] + 1 == v;
    }
  }

  lemma ObjectWellFormed(sys: System)
    requires WellFormed(sys)
    ensures WellFormed(Apply(sys, NewObject))
  {
    forall e | e in sys.cons
      ensures EdgeOk(sys.n + 2, sys.objVec + [sys.n], e)
    {
      assert EdgeOk(sys.n, sys.objVec, e);
      ObjectAnon(sys, e.dst);
      if e.kind == AddrOf {
        var o :| 0 <= o < |sys.objVec| && sys.objVec[o] == e.src;
        assert (sys.objVec + [sys.n])[o] == e.src;
      }
    }
  }

  /** A new object starts with its address in its anonymous node. */
  lemma ObjectKeeps(net: Net)
    requires Good(net)
    ensures var n, o := net.sys.n, |net.sys.objVec|;
      Good(Net(Apply(net.sys, NewObject), net.rep + [n, n + 1], net.edges + {Edge(AddrOf, n, n + 1)}, net.pts + [{}, {o}]))
  {
    var n, o, sys' := net.sys.n, |net.sys.objVec|, Apply(net.sys, NewObject);
    var net' := Net(sys', net.rep + [n, n + 1], net.edges + {Edge(AddrOf, n, n + 1)}, net.pts + [{}, {o}]);
    ObjectWellFormed(net.sys);
    forall v: nat
      ensures IsAnon(sys'.objVec, v) <==> IsAnon(net.sys.objVec, v) || v == n + 1
    {
      ObjectAnon(net.sys, v);
    }
    assert Wired(sys', net'.rep, net'.edges) by {
      assert NoneIntoAnon(sys'.objVec, net'.edges);
    }
    assert Pointed(sys', net'.pts);
    GrowKeeps(net, net');
    forall q | Fits(sys', q)
      ensures Sound(net', q)
    {
      FitsShrinks(net.sys, sys', q);
      assert Sound(net, q);
    }
  }

  /** Adding a constraint together with the edge that represents it keeps the state good. */
  lemma ConstraintKeeps(net: Net, e: Edge)
    requires Good(net) && EdgeOk(net.sys.n, net.sys.objVec, e)
    ensures e.kind == AddrOf ==> e.src + 1 < net.sys.n
    ensures var f := Stored(net.rep, e);
      Good(net.(sys := net.sys.(cons := net.sys.cons + {e}), edges := if SelfCopy(f) then net.edges else net.edges + {f}))
  {
    var objVec, f, sys' := net.sys.objVec, Stored(net.rep, e), net.sys.(cons := net.sys.cons + {e});
    var net' := net.(sys := sys', edges := if SelfCopy(f) then net.edges else net.edges + {f});
    assert !IsAnon(objVec, f.dst);
    assert Wired(sys', net'.rep, net'.edges) && Pointed(sys', net'.pts);
    ConstraintLinked(net, e, net');
    forall q | Fits(sys', q)
      ensures Sound(net', q)
    {
      ConstraintSound(net, e, net', q);
    }
  }

  /** Every constraint is represented, and every load or store edge comes from a constraint. */
  lemma ConstraintLinked(net: Net, e: Edge, net': Net)
    requires Good(net) && EdgeOk(net.sys.n, net.sys.objVec, e)
    requires var f := Stored(net.rep, e);
      net' == net.(sys := net.sys.(cons := net.sys.cons + {e}), edges := if SelfCopy(f) then net.edges else net.edges + {f})
    ensures forall c :: c in net'.sys.cons ==> Kept(net'.rep, net'.edges, c)
    ensures forall g :: g in net'.edges && (g.kind == Load || g.kind == Store) ==> HasSource(net'.sys.cons, net'.rep, g)
  {
    forall c | c in net'.sys.cons
      ensures Kept(net'.rep, net'.edges, c)
    {
      assert c != e ==> Kept(net.rep, net.edges, c);
    }
    forall g | g in net'.edges && (g.kind == Load || g.kind == Store)
      ensures HasSource(net'.sys.cons, net'.rep, g)
    {
      if g in net.edges {
        assert HasSource(net.sys.cons, net.rep, g);
        var c :| c in net.sys.cons && IsSource(net.rep, c, g);
        assert c in net'.sys.cons;
      } else {
        assert IsSource(net'.rep, e, g);
      }
    }
  }

  lemma ConstraintSound(net: Net, e: Edge, net': Net, q: seq<set<nat>>)
    requires Good(net) && EdgeOk(net.sys.n, net.sys.objVec, e)
    requires var f := Stored(net.rep, e);
      net' == net.(sys := net.sys.(cons := net.sys.cons + {e}), edges := if SelfCopy(f) then net.edges else net.edges + {f})
    requires Fits(net'.sys, q)
    ensures Sound(net', q)
  {
    var objVec := net.sys.objVec;
    FitsShrinks(net.sys, net'.sys, q);
    assert Sound(net, q) && Holds(objVec, q, e);
    if e.kind == AddrOf {
      var o :| 0 <= o < |objVec| && objVec[o] == e.src;
      AnonAlone(net, o);
    }
  }
}
