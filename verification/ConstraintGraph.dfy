/**
 * The constraint graph: mirrored successor and predecessor sets, super-node links and the
 * collapsing of strongly connected components
 * (src/PointerAnalysis/Graph/ConstraintGraph/ConstraintGraph.h and CGNodeBase.h).
 */
module ConstraintGraphs {
  import opened ConstraintSystems

  datatype SuperLink = NoSuper | Super(node: nat)

  /** Names one edge set of one node: `succCons[kind]` or `predCons[kind]` of `node`. */
  datatype Port = Port(kind: Kind, node: nat)

  const KINDS: seq<Kind> := [AddrOf, Copy, Store, Load]

  /** The node that stands for `v` once the nodes in `C` are merged into `s`. */
  function Merge(C: set<nat>, s: nat, v: nat): nat {
    if v in C then s else v
  }

  /** A copy from a node to itself has no effect and is never stored. */
  predicate SelfCopy(e: Edge) {
    e.kind == Copy && e.src == e.dst
  }

  function MergeEdge(C: set<nat>, s: nat, e: Edge): Edge {
    Edge(e.kind, Merge(C, s, e.src), Merge(C, s, e.dst))
  }

  /** The quotient of `E` when the nodes in `C` are merged into `s`. */
  ghost function Quotient(E: set<Edge>, C: set<nat>, s: nat): set<Edge> {
    set e | e in E && !SelfCopy(MergeEdge(C, s, e)) :: MergeEdge(C, s, e)
  }

  /** Merging one more node refines the quotient. */
  lemma QuotientStep(E: set<Edge>, C: set<nat>, s: nat, c: nat)
    requires s !in C && c != s
    ensures Quotient(Quotient(E, C, s), {c}, s) == Quotient(E, C + {c}, s)
  {
    var Q, Q1, Q2 := Quotient(E, C, s), Quotient(Quotient(E, C, s), {c}, s), Quotient(E, C + {c}, s);
    forall e | e in Q1
      ensures e in Q2
    {
      var f :| f in Q && !SelfCopy(MergeEdge({c}, s, f)) && e == MergeEdge({c}, s, f);
      var g :| g in E && !SelfCopy(MergeEdge(C, s, g)) && f == MergeEdge(C, s, g);
      assert MergeEdge(C + {c}, s, g) == e;
    }
    forall e | e in Q2
      ensures e in Q1
    {
      var g :| g in E && !SelfCopy(MergeEdge(C + {c}, s, g)) && e == MergeEdge(C + {c}, s, g);
      assert MergeEdge(C, s, g) in Q;
      assert MergeEdge({c}, s, MergeEdge(C, s, g)) == e;
    }
  }

  lemma QuotientNone(E: set<Edge>, s: nat)
    requires forall e :: e in E ==> !SelfCopy(e)
    ensures Quotient(E, {}, s) == E
  {
    forall e | e in E
      ensures MergeEdge({}, s, e) == e
    {
    }
  }

  /** The edges into `c`, of the given kinds, redirected to `s`. */
  ghost function MovedIn(E: set<Edge>, c: nat, s: nat, kinds: set<Kind>): set<Edge> {
    set e | e in E && e.dst == c && e.kind in kinds && !SelfCopy(Edge(e.kind, e.src, s)) :: Edge(e.kind, e.src, s)
  }

  /** The edges out of `c`, of the given kinds, redirected to leave from `s`. */
  ghost function MovedOut(E: set<Edge>, c: nat, s: nat, kinds: set<Kind>): set<Edge> {
    set e | e in E && e.src == c && e.kind in kinds && !SelfCopy(Edge(e.kind, s, e.dst)) :: Edge(e.kind, s, e.dst)
  }

  ghost function Without(E: set<Edge>, c: nat): set<Edge> {
    set e | e in E && e.src != c && e.dst != c
  }

  const ALL: set<Kind> := {Load, Store, Copy, AddrOf}

  lemma AllKinds(k: Kind)
    ensures k in ALL
  {
    assert k.Load? || k.Store? || k.Copy? || k.AddrOf?;
  }

  /** Redirecting the edges of one node and then erasing it is the quotient by that node. */
  lemma RedirectIsQuotient(E: set<Edge>, E1: set<Edge>, E2: set<Edge>, c: nat, s: nat)
    requires c != s && forall e :: e in E ==> !SelfCopy(e)
    requires E1 == E + MovedIn(E, c, s, ALL) && E2 == E1 + MovedOut(E1, c, s, ALL)
    ensures Without(E2, c) == Quotient(E, {c}, s)
  {
    forall k: Kind
      ensures k in ALL
    {
      AllKinds(k);
    }
    var W, Q := Without(E2, c), Quotient(E, {c}, s);
    forall e | e in W
      ensures e in Q
    {
      if e in E {
        assert MergeEdge({c}, s, e) == e;
      } else if e in MovedIn(E, c, s, ALL) {
        assert MergeEdge({c}, s, Edge(e.kind, e.src, c)) == e;
      } else {
        var f := Edge(e.kind, c, e.dst);
        assert f in E1;
        if f !in E {
          assert Edge(e.kind, c, c) in E;
          assert MergeEdge({c}, s, Edge(e.kind, c, c)) == e;
        } else {
          assert MergeEdge({c}, s, f) == e;
        }
      }
    }
    forall e | e in Q
      ensures e in W
    {
      var f :| f in E && !SelfCopy(MergeEdge({c}, s, f)) && e == MergeEdge({c}, s, f);
      if f.dst == c {
        assert Edge(f.kind, f.src, s) in E1;
      }
      if f.src == c {
        assert Edge(f.kind, c, Merge({c}, s, f.dst)) in E1;
        assert Edge(f.kind, s, Merge({c}, s, f.dst)) in E2;
      }
    }
  }

  /** `rep` resolves the super-node links, which lead to ever later collapsed nodes and so never form a cycle. */
  ghost predicate Links(superNode: seq<SuperLink>, rep: seq<nat>, rank: seq<nat>, clock: nat) {
    && |superNode| == |rep| == |rank|
    && (forall v :: 0 <= v < |rep| ==> rep[v] < |rep| && rep[rep[v]] == rep[v])
    && (forall v :: 0 <= v < |rep| ==> (superNode[v].NoSuper? <==> rep[v] == v))
    && (forall v :: 0 <= v < |rep| && superNode[v].Super? ==> LinkOk(superNode, rep, rank, clock, v, superNode[v].node))
  }

  ghost predicate LinkOk(superNode: seq<SuperLink>, rep: seq<nat>, rank: seq<nat>, clock: nat, v: nat, s: nat)
    requires |superNode| == |rep| == |rank| && v < |rep|
  {
    && s < |rep| && rep[s] == rep[v] && rank[v] < clock
    && (superNode[s].Super? ==> rank[v] < rank[s])
  }

  /** Both edge maps of the `n` nodes say what `edges` says. */
  ghost predicate Mirrored(n: nat, succ: map<Port, set<nat>>, pred: map<Port, set<nat>>, edges: set<Edge>) {
    && (forall p: Port :: p.node < n ==> p in succ && p in pred)
    && (forall k, a: nat, b: nat :: a < n ==> (b in succ[Port(k, a)] <==> Edge(k, a, b) in edges))
    && (forall k, a: nat, b: nat :: b < n ==> (a in pred[Port(k, b)] <==> Edge(k, a, b) in edges))
  }

  /** Edges only join representatives, and no node copies to itself. */
  ghost predicate EdgesLive(rep: seq<nat>, edges: set<Edge>) {
    forall e :: e in edges ==> e.src < |rep| && e.dst < |rep| && rep[e.src] == e.src && rep[e.dst] == e.dst && !SelfCopy(e)
  }

  lemma MirroredInsert(n: nat, succ: map<Port, set<nat>>, pred: map<Port, set<nat>>, edges: set<Edge>, e: Edge)
    requires Mirrored(n, succ, pred, edges) && e.src < n && e.dst < n
    ensures var p, q := Port(e.kind, e.src), Port(e.kind, e.dst);
      && p in succ && q in pred && (e.dst in succ[p] <==> e in edges)
      && Mirrored(n, succ[p := succ[p] + {e.dst}], pred[q := pred[q] + {e.src}], edges + {e})
  {
    var p, q := Port(e.kind, e.src), Port(e.kind, e.dst);
    var succ', pred' := succ[p := succ[p] + {e.dst}], pred[q := pred[q] + {e.src}];
    forall k, a: nat, b: nat | a < n
      ensures b in succ'[Port(k, a)] <==> Edge(k, a, b) in edges + {e}
    {
      assert b in succ[Port(k, a)] <==> Edge(k, a, b) in edges;
    }
    forall k, a: nat, b: nat | b < n
      ensures a in pred'[Port(k, b)] <==> Edge(k, a, b) in edges + {e}
    {
      assert a in pred[Port(k, b)] <==> Edge(k, a, b) in edges;
    }
  }

  /** `succ` with the four empty edge sets of a new node `v`. */
  function WithNode(succ: map<Port, set<nat>>, v: nat): map<Port, set<nat>> {
    succ[Port(Load, v) := {}][Port(Store, v) := {}][Port(Copy, v) := {}][Port(AddrOf, v) := {}]
  }

  lemma MirroredNode(n: nat, succ: map<Port, set<nat>>, pred: map<Port, set<nat>>, rep: seq<nat>, edges: set<Edge>)
    requires Mirrored(n, succ, pred, edges) && EdgesLive(rep, edges) && |rep| == n
    ensures Mirrored(n + 1, WithNode(succ, n), WithNode(pred, n), edges)
  {
    var succ', pred' := WithNode(succ, n), WithNode(pred, n);
    forall p: Port | p.node < n + 1
      ensures p in succ' && p in pred'
      ensures if p.node == n then succ'[p] == pred'[p] == {} else p in succ && p in pred && succ'[p] == succ[p] && pred'[p] == pred[p]
    {
      assert p.kind.Load? || p.kind.Store? || p.kind.Copy? || p.kind.AddrOf?;
    }
    forall k, a: nat, b: nat | a < n + 1
      ensures b in succ'[Port(k, a)] <==> Edge(k, a, b) in edges
    {
      assert Port(k, a).node == a;
    }
    forall k, a: nat, b: nat | b < n + 1
      ensures a in pred'[Port(k, b)] <==> Edge(k, a, b) in edges
    {
      assert Port(k, b).node == b;
    }
  }

  /** The two edge maps agree on the edges of kind `k`. */
  ghost predicate MirroredKind(n: nat, succ: map<Port, set<nat>>, pred: map<Port, set<nat>>, k: Kind) {
    && (forall p: Port :: p.node < n ==> p in succ && p in pred)
    && (forall a: nat, b: nat :: a < n && Has(succ, k, a, b) ==> b < n && Has(pred, k, b, a))
    && (forall a: nat, b: nat :: b < n && Has(pred, k, b, a) ==> a < n && Has(succ, k, a, b))
  }

  ghost predicate Has(m: map<Port, set<nat>>, k: Kind, v: nat, w: nat) {
    Port(k, v) in m && w in m[Port(k, v)]
  }

  lemma MirroredKinds(n: nat, succ: map<Port, set<nat>>, pred: map<Port, set<nat>>, rep: seq<nat>, edges: set<Edge>, k: Kind)
    requires Mirrored(n, succ, pred, edges) && EdgesLive(rep, edges) && |rep| == n
    ensures MirroredKind(n, succ, pred, k)
  {
    forall a: nat, b: nat | a < n && Has(succ, k, a, b)
      ensures b < n && Has(pred, k, b, a)
    {
      assert Edge(k, a, b) in edges;
      assert Port(k, b).node == b;
    }
    forall a: nat, b: nat | b < n && Has(pred, k, b, a)
      ensures a < n && Has(succ, k, a, b)
    {
      assert Edge(k, a, b) in edges;
      assert Port(k, a).node == a;
    }
  }

  /** Dropping `c` from all its neighbours on one side, and then emptying its own set, erases it from that side. */
  lemma DroppedIsErased(n: nat, m: map<Port, set<nat>>, m': map<Port, set<nat>>, targets: set<nat>, k: Kind, c: nat)
    requires c < n && m'.Keys == m.Keys && forall p: Port :: p.node < n ==> p in m
    requires forall v: nat :: v < n && v != c ==> (v in targets <==> c in m[Port(k, v)])
    requires forall p :: p in m ==> m'[p] == if p.kind == k && p.node in targets then m[p] - {c} else m[p]
    ensures Erased(n, m, m'[Port(k, c) := {}], c, {k})
  {
    forall p: Port | p.node < n && p.kind == k && p.node != c
      ensures m'[p] == m[p] - {c}
    {
      assert p == Port(k, p.node);
    }
  }

  lemma NeighboursMirrored(n: nat, succ: map<Port, set<nat>>, pred: map<Port, set<nat>>, k: Kind, c: nat)
    requires c < n && MirroredKind(n, succ, pred, k)
    ensures forall p: Port :: p.node < n ==> p in succ && p in pred
    ensures Port(k, c) in succ && Port(k, c) in pred
    ensures forall v :: v in succ[Port(k, c)] || v in pred[Port(k, c)] ==> Port(k, v) in pred && Port(k, v) in succ
    ensures forall v: nat :: v < n ==> Port(k, v) in pred && Port(k, v) in succ
    ensures forall v: nat :: v < n ==> (v in succ[Port(k, c)] <==> c in pred[Port(k, v)]) && (v in pred[Port(k, c)] <==> c in succ[Port(k, v)])
  {
    var here := Port(k, c);
    assert here.node == c;
    assert forall v :: v in succ[here] ==> Has(succ, k, c, v) && Port(k, v).node == v;
    assert forall v :: v in pred[here] ==> Has(pred, k, c, v) && Port(k, v).node == v;
    forall v: nat | v < n
      ensures Port(k, v) in pred && Port(k, v) in succ
      ensures v in succ[here] <==> c in pred[Port(k, v)]
      ensures v in pred[here] <==> c in succ[Port(k, v)]
    {
      assert Port(k, v).node == v;
      assert Has(succ, k, c, v) <==> Has(pred, k, v, c);
      assert Has(pred, k, c, v) <==> Has(succ, k, v, c);
    }
  }

  lemma ErasedOther(n: nat, succ: map<Port, set<nat>>, pred: map<Port, set<nat>>,
                    succ': map<Port, set<nat>>, pred': map<Port, set<nat>>, c: nat, kinds: set<Kind>, k: Kind)
    requires MirroredKind(n, succ, pred, k) && k !in kinds
    requires Erased(n, succ, succ', c, kinds) && Erased(n, pred, pred', c, kinds)
    ensures MirroredKind(n, succ', pred', k)
  {
    forall v: nat, w: nat | v < n
      ensures Has(succ', k, v, w) == Has(succ, k, v, w) && Has(pred', k, v, w) == Has(pred, k, v, w)
    {
      assert Port(k, v).node == v;
    }
  }

  lemma ErasedMore(n: nat, succ: map<Port, set<nat>>, succ': map<Port, set<nat>>, succ'': map<Port, set<nat>>,
                   c: nat, kinds: set<Kind>, k: Kind)
    requires Erased(n, succ, succ', c, kinds) && Erased(n, succ', succ'', c, {k}) && k !in kinds
    ensures Erased(n, succ, succ'', c, kinds + {k})
  {
  }

  lemma MovedInMore(E: set<Edge>, c: nat, s: nat, kinds: set<Kind>, k: Kind)
    requires c != s
    ensures var E1 := E + MovedIn(E, c, s, kinds);
      E1 + MovedIn(E1, c, s, {k}) == E + MovedIn(E, c, s, kinds + {k})
  {
    var E1 := E + MovedIn(E, c, s, kinds);
    assert forall e :: e in E1 && e.dst == c ==> e in E;
    assert MovedIn(E1, c, s, {k}) == MovedIn(E, c, s, {k});
  }

  lemma MovedOutMore(E: set<Edge>, c: nat, s: nat, kinds: set<Kind>, k: Kind)
    requires c != s
    ensures var E1 := E + MovedOut(E, c, s, kinds);
      E1 + MovedOut(E1, c, s, {k}) == E + MovedOut(E, c, s, kinds + {k})
  {
    var E1 := E + MovedOut(E, c, s, kinds);
    assert forall e :: e in E1 && e.src == c ==> e in E;
    assert MovedOut(E1, c, s, {k}) == MovedOut(E, c, s, {k});
  }

  /** Erasing the node `c` from both edge maps erases its edges. */
  ghost predicate Erased(n: nat, succ: map<Port, set<nat>>, succ': map<Port, set<nat>>, c: nat, kinds: set<Kind>) {
    && (forall p: Port :: p.node < n ==> p in succ && p in succ')
    && (forall p: Port :: p.node < n ==>
          succ'[p] == if p.kind !in kinds then succ[p] else if p.node == c then {} else succ[p] - {c})
  }

  lemma MirroredErase(n: nat, succ: map<Port, set<nat>>, pred: map<Port, set<nat>>,
                      succ': map<Port, set<nat>>, pred': map<Port, set<nat>>, edges: set<Edge>, c: nat)
    requires Mirrored(n, succ, pred, edges)
    requires Erased(n, succ, succ', c, ALL) && Erased(n, pred, pred', c, ALL)
    ensures Mirrored(n, succ', pred', Without(edges, c))
  {
    forall k, a: nat, b: nat | a < n
      ensures b in succ'[Port(k, a)] <==> Edge(k, a, b) in Without(edges, c)
    {
      AllKinds(k);
      assert Port(k, a).node == a;
      assert b in succ[Port(k, a)] <==> Edge(k, a, b) in edges;
    }
    forall k, a: nat, b: nat | b < n
      ensures a in pred'[Port(k, b)] <==> Edge(k, a, b) in Without(edges, c)
    {
      AllKinds(k);
      assert Port(k, b).node == b;
      assert a in pred[Port(k, b)] <==> Edge(k, a, b) in edges;
    }
  }

  /** The super-node links after the live node `c` has been collapsed into the live node `s`. */
  lemma LinksCollapse(superNode: seq<SuperLink>, rep: seq<nat>, rank: seq<nat>, clock: nat, c: nat, s: nat)
    requires Links(superNode, rep, rank, clock)
    requires c < |rep| && s < |rep| && rep[c] == c && rep[s] == s && c != s
    ensures |superNode| == |rep| == |rank|
    ensures Links(superNode[c := Super(s)], Redirect(rep, {c}, s), rank[c := clock], clock + 1)
  {
    var super', rep', rank' := superNode[c := Super(s)], Redirect(rep, {c}, s), rank[c := clock];
    forall v | 0 <= v < |rep| && super'[v].Super?
      ensures LinkOk(super', rep', rank', clock + 1, v, super'[v].node)
    {
      if v != c {
        assert LinkOk(superNode, rep, rank, clock, v, superNode[v].node);
      }
    }
  }

  /** Representatives after the nodes in `C` have been merged into `s`. */
  ghost function Redirect(rep: seq<nat>, C: set<nat>, s: nat): (r: seq<nat>)
    ensures |r| == |rep| && forall v :: 0 <= v < |rep| ==> r[v] == Merge(C, s, rep[v])
  {
    seq(|rep|, v requires 0 <= v < |rep| => Merge(C, s, rep[v]))
  }

  /** The edges of kind `k` from the nodes in `P` to `s`, self copies left out. */
  ghost function Into(P: set<nat>, k: Kind, s: nat): set<Edge> {
    set p | p in P && !SelfCopy(Edge(k, p, s)) :: Edge(k, p, s)
  }

  /** The edges of kind `k` from `s` to the nodes in `T`, self copies left out. */
  ghost function OutOf(T: set<nat>, k: Kind, s: nat): set<Edge> {
    set t | t in T && !SelfCopy(Edge(k, s, t)) :: Edge(k, s, t)
  }

  lemma IntoNone(k: Kind, s: nat)
    ensures Into({}, k, s) == OutOf({}, k, s) == {}
  {
  }

  lemma IntoStep(all: set<nat>, todo: set<nat>, p: nat, k: Kind, s: nat)
    requires p in todo && todo <= all
    ensures Into(all - (todo - {p}), k, s) ==
            Into(all - todo, k, s) + if SelfCopy(Edge(k, p, s)) then {} else {Edge(k, p, s)}
  {
  }

  lemma OutOfStep(all: set<nat>, todo: set<nat>, t: nat, k: Kind, s: nat)
    requires t in todo && todo <= all
    ensures OutOf(all - (todo - {t}), k, s) ==
            OutOf(all - todo, k, s) + if SelfCopy(Edge(k, s, t)) then {} else {Edge(k, s, t)}
  {
  }

  lemma IntoAll(E: set<Edge>, all: set<nat>, c: nat, k: Kind, s: nat)
    requires forall p :: p in all <==> Edge(k, p, c) in E
    ensures Into(all - {}, k, s) == MovedIn(E, c, s, {k})
  {
    forall e | e in MovedIn(E, c, s, {k})
      ensures e in Into(all - {}, k, s)
    {
      assert e.src in all;
    }
    forall e | e in Into(all - {}, k, s)
      ensures e in MovedIn(E, c, s, {k})
    {
      assert Edge(k, e.src, c) in E;
    }
  }

  lemma OutOfAll(E: set<Edge>, all: set<nat>, c: nat, k: Kind, s: nat)
    requires forall t :: t in all <==> Edge(k, c, t) in E
    ensures OutOf(all - {}, k, s) == MovedOut(E, c, s, {k})
  {
    forall e | e in MovedOut(E, c, s, {k})
      ensures e in OutOf(all - {}, k, s)
    {
      assert e.dst in all;
    }
    forall e | e in OutOf(all - {}, k, s)
      ensures e in MovedOut(E, c, s, {k})
    {
      assert Edge(k, c, e.dst) in E;
    }
  }

  /** Reset the bit of `c` in the kind-`k` edge set of every node in `targets`. */
  method DropFrom(m: map<Port, set<nat>>, targets: set<nat>, k: Kind, c: nat) returns (r: map<Port, set<nat>>)
    requires forall t :: t in targets ==> Port(k, t) in m
    ensures r.Keys == m.Keys
    ensures forall p :: p in m ==> r[p] == if p.kind == k && p.node in targets then m[p] - {c} else m[p]
  {
    r := m;
    var todo := targets;
    while todo != {}
      invariant todo <= targets && r.Keys == m.Keys
      invariant forall p :: p in m ==> r[p] == if p.kind == k && p.node in targets - todo then m[p] - {c} else m[p]
    {
      var t :| t in todo;
      r := r[Port(k, t) := r[Port(k, t)] - {c}];
      todo := todo - {t};
    }
  }

  lemma MirroredPreds(n: nat, succ: map<Port, set<nat>>, pred: map<Port, set<nat>>, edges: set<Edge>, k: Kind, c: nat)
    requires Mirrored(n, succ, pred, edges) && c < n
    ensures Port(k, c) in succ && Port(k, c) in pred
    ensures forall a :: a in pred[Port(k, c)] <==> Edge(k, a, c) in edges
    ensures forall b :: b in succ[Port(k, c)] <==> Edge(k, c, b) in edges
  {
    assert Port(k, c).node == c;
  }

  /** The first `i` kinds in the order the edge iterator runs through them. */
  ghost function KindsBelow(i: nat): set<Kind>
    requires i <= 4
  {
    if i == 0 then {} else if i == 1 then {AddrOf} else if i == 2 then {AddrOf, Copy}
    else if i == 3 then {AddrOf, Copy, Store} else ALL
  }

  lemma KindsStep(i: nat)
    requires i < 4
    ensures KindsBelow(i) + {KINDS[i]} == KindsBelow(i + 1)
  {
  }

  lemma MovedNone(E: set<Edge>, c: nat, s: nat)
    ensures MovedIn(E, c, s, KindsBelow(0)) == MovedOut(E, c, s, KindsBelow(0)) == {}
    ensures KindsBelow(4) == ALL
  {
  }

  /** The nodes of `scc` other than its representative. */
  function Others(scc: seq<nat>, s: nat): set<nat> {
    set v | v in scc && v != s
  }

  /** The edge that represents a constraint: between representatives, address-of as a copy. */
  function Stored(rep: seq<nat>, e: Edge): Edge
    requires e.src < |rep| && e.dst < |rep| && (e.kind == AddrOf ==> e.src + 1 < |rep|)
  {
    if e.kind == AddrOf then Edge(Copy, rep[e.src + 1], rep[e.dst]) else Edge(e.kind, rep[e.src], rep[e.dst])
  }

  class ConstraintGraph {
    var superNode: seq<SuperLink>
    var succCons: map<Port, set<nat>>
    var predCons: map<Port, set<nat>>
    var objVec: seq<nat>
    /** The edges between representatives, and the representative of every node. */
    ghost var edges: set<Edge>
    ghost var rep: seq<nat>
    /** When a node was collapsed: its super node, if collapsed at all, was collapsed later. */
    ghost var rank: seq<nat>
    ghost var clock: nat

    ghost predicate Valid()
      reads this
    {
      && Links(superNode, rep, rank, clock)
      && Mirrored(|rep|, succCons, predCons, edges)
      && EdgesLive(rep, edges)
      && ObjectsOk(|rep|, objVec)
    }

    constructor ()
      ensures Valid() && rep == [] && objVec == [] && edges == {}
    {
      superNode, objVec, edges, rep, rank, clock := [], [], {}, [], [], 0;
      succCons, predCons := map[], map[];
    }

    /** `getSuperNode`. */
    method GetSuperNode(v: nat) returns (r: nat)
      requires Valid() && v < |rep|
      ensures r == rep[v] && r < |rep| && rep[r] == r
    {
      r := v;
      while superNode[r].Super?
        invariant r < |rep| && rep[r] == rep[v]
        decreases if superNode[r].Super? then clock - rank[r] else 0
      {
        r := superNode[r].node;
      }
    }

    /** `insertConstraint`: link the representatives, unless that is a self copy. */
    method InsertConstraint(src: nat, dst: nat, kind: Kind) returns (added: bool)
      requires Valid() && src < |rep| && dst < |rep|
      modifies `succCons, `predCons, `edges
      ensures Valid()
      ensures var e := Edge(kind, rep[src], rep[dst]);
        && added == (!SelfCopy(e) && e !in old(edges))
        && edges == if SelfCopy(e) then old(edges) else old(edges) + {e}
    {
      hide Links, Mirrored;
      var s := GetSuperNode(src);
      var d := GetSuperNode(dst);
      if s == d && kind == Copy {
        return false;
      }
      MirroredInsert(|rep|, succCons, predCons, edges, Edge(kind, s, d));
      added := d !in succCons[Port(kind, s)];
      succCons := succCons[Port(kind, s) := succCons[Port(kind, s)] + {d}];
      predCons := predCons[Port(kind, d) := predCons[Port(kind, d)] + {s}];
      edges := edges + {Edge(kind, s, d)};
    }

    /** `addCGNode` for a pointer node. */
    method AddNode() returns (v: nat)
      requires Valid()
      modifies this
      ensures Valid() && v == old(|rep|) && rep == old(rep) + [v]
      ensures edges == old(edges) && objVec == old(objVec)
    {
      hide Mirrored;
      v := |superNode|;
      MirroredNode(|rep|, succCons, predCons, rep, edges);
      superNode := superNode + [NoSuper];
      succCons, predCons := WithNode(succCons, v), WithNode(predCons, v);
      rep, rank := rep + [v], rank + [0];
    }

    /** `addCGNode` for an object node: the next node takes its address. */
    method AddObjNode() returns (v: nat)
      requires Valid()
      modifies this
      ensures Valid() && v == old(|rep|) && rep == old(rep) + [v, v + 1]
      ensures edges == old(edges) + {Edge(AddrOf, v, v + 1)} && objVec == old(objVec) + [v]
    {
      hide Mirrored, Links;
      v := AddNode();
      var anon := AddNode();
      var _ := InsertConstraint(v, anon, AddrOf);
      objVec := objVec + [v];
    }

    /** `addConstraints`: an address-of constraint becomes a copy from the anonymous node of the object. */
    method AddConstraints(src: nat, dst: nat, kind: Kind) returns (added: bool)
      requires Valid() && EdgeOk(|rep|, objVec, Edge(kind, src, dst))
      modifies `succCons, `predCons, `edges
      ensures Valid()
      ensures var e := Stored(rep, Edge(kind, src, dst));
        && added == (!SelfCopy(e) && e !in old(edges))
        && edges == if SelfCopy(e) then old(edges) else old(edges) + {e}
    {
      hide Links, Mirrored;
      if src == dst && kind == Copy {
        return false;
      }
      if kind == AddrOf {
        added := InsertConstraint(src + 1, dst, Copy);
      } else {
        added := InsertConstraint(src, dst, kind);
      }
    }

    /** Redirect the edges of kind `k` into `c` to `s`. */
    method MergeIncoming(c: nat, s: nat, k: Kind)
      requires Valid() && c < |rep| && s < |rep| && rep[c] == c && rep[s] == s && c != s
      modifies `succCons, `predCons, `edges
      ensures Valid() && edges == old(edges) + MovedIn(old(edges), c, s, {k})
    {
      hide Links;
      ghost var E := edges;
      hide Mirrored, Into, OutOf;
      MirroredPreds(|rep|, succCons, predCons, edges, k, c);
      assert Into({}, k, s) == OutOf({}, k, s) == {} by {
        IntoNone(k, s);
      }
      var todo := predCons[Port(k, c)];
      ghost var all := todo;
      assert all - todo == {};
      while todo != {}
        invariant todo <= all && Valid()
        invariant edges == E + Into(all - todo, k, s)
      {
        var p :| p in todo;
        assert Edge(k, p, c) in E;
        var _ := InsertConstraint(p, s, k);
        IntoStep(all, todo, p, k, s);
        todo := todo - {p};
      }
      IntoAll(E, all, c, k, s);
    }

    /** Redirect the edges of kind `k` out of `c` to leave from `s`. */
    method MergeOutgoing(c: nat, s: nat, k: Kind)
      requires Valid() && c < |rep| && s < |rep| && rep[c] == c && rep[s] == s && c != s
      modifies `succCons, `predCons, `edges
      ensures Valid() && edges == old(edges) + MovedOut(old(edges), c, s, {k})
    {
      hide Links;
      ghost var E := edges;
      hide Mirrored, Into, OutOf;
      MirroredPreds(|rep|, succCons, predCons, edges, k, c);
      assert Into({}, k, s) == OutOf({}, k, s) == {} by {
        IntoNone(k, s);
      }
      var todo := succCons[Port(k, c)];
      ghost var all := todo;
      assert all - todo == {};
      while todo != {}
        invariant todo <= all && Valid()
        invariant edges == E + OutOf(all - todo, k, s)
      {
        var t :| t in todo;
        assert Edge(k, c, t) in E;
        var _ := InsertConstraint(s, t, k);
        OutOfStep(all, todo, t, k, s);
        todo := todo - {t};
      }
      OutOfAll(E, all, c, k, s);
    }

    /** One kind of `clearConstraints`: take `c` out of its neighbours' sets and empty its own. */
    method ClearKind(c: nat, k: Kind)
      requires c < |rep| && MirroredKind(|rep|, succCons, predCons, k)
      modifies `succCons, `predCons
      ensures Erased(|rep|, old(succCons), succCons, c, {k}) && Erased(|rep|, old(predCons), predCons, c, {k})
    {
      NeighboursMirrored(|rep|, succCons, predCons, k, c);
      hide Erased, MirroredKind;
      var here := Port(k, c);
      ghost var succ0, pred0 := succCons, predCons;
      predCons := DropFrom(predCons, succCons[here], k, c);
      succCons := DropFrom(succCons, predCons[here], k, c);
      DroppedIsErased(|rep|, pred0, predCons, succ0[here], k, c);
      DroppedIsErased(|rep|, succ0, succCons, predCons[here], k, c);
      succCons, predCons := succCons[here := {}], predCons[here := {}];
    }

    /** `clearConstraints`. */
    method ClearConstraints(c: nat)
      requires Valid() && c < |rep|
      modifies `succCons, `predCons
      ensures Erased(|rep|, old(succCons), succCons, c, ALL) && Erased(|rep|, old(predCons), predCons, c, ALL)
    {
      ghost var n, succ0, pred0 := |rep|, succCons, predCons;
      forall k: Kind
        ensures MirroredKind(n, succ0, pred0, k)
      {
        MirroredKinds(n, succCons, predCons, rep, edges, k);
      }
      assert Erased(n, succ0, succCons, c, {}) && Erased(n, pred0, predCons, c, {});
      hide Erased, MirroredKind, Links, Mirrored;
      var i := 0;
      ghost var done := {};
      while i < 4
        invariant 0 <= i <= 4 && done == KindsBelow(i)
        invariant Erased(n, succ0, succCons, c, done) && Erased(n, pred0, predCons, c, done)
      {
        ghost var succ1, pred1 := succCons, predCons;
        ErasedOther(n, succ0, pred0, succ1, pred1, c, done, KINDS[i]);
        ClearKind(c, KINDS[i]);
        ErasedMore(n, succ0, succ1, succCons, c, done, KINDS[i]);
        ErasedMore(n, pred0, pred1, predCons, c, done, KINDS[i]);
        done := done + {KINDS[i]};
        i := i + 1;
      }
    }

    /** Hand the edges of `c` to `s`; once `c` is erased the graph is the quotient. */
    method MergeEdges(c: nat, s: nat)
      requires Valid() && c < |rep| && s < |rep| && rep[c] == c && rep[s] == s && c != s
      modifies `succCons, `predCons, `edges
      ensures Valid() && Without(edges, c) == Quotient(old(edges), {c}, s)
    {
      hide Links, Mirrored, MovedIn, MovedOut, KindsBelow;
      ghost var E := edges;
      MovedNone(E, c, s);
      var i := 0;
      while i < 4
        invariant 0 <= i <= 4 && Valid() && edges == E + MovedIn(E, c, s, KindsBelow(i))
      {
        MovedInMore(E, c, s, KindsBelow(i), KINDS[i]);
        KindsStep(i);
        MergeIncoming(c, s, KINDS[i]);
        i := i + 1;
      }
      ghost var E1 := edges;
      MovedNone(E1, c, s);
      i := 0;
      while i < 4
        invariant 0 <= i <= 4 && Valid() && edges == E1 + MovedOut(E1, c, s, KindsBelow(i))
      {
        MovedOutMore(E1, c, s, KindsBelow(i), KINDS[i]);
        KindsStep(i);
        MergeOutgoing(c, s, KINDS[i]);
        i := i + 1;
      }
      RedirectIsQuotient(E, E1, edges, c, s);
    }

    /** The body of the collapsing loop: `c` hands its edges to `s` and disappears. */
    method CollapseNode(c: nat, s: nat)
      requires Valid() && c < |rep| && s < |rep| && rep[c] == c && rep[s] == s && c != s
      modifies this
      ensures Valid() && objVec == old(objVec)
      ensures edges == Quotient(old(edges), {c}, s) && rep == Redirect(old(rep), {c}, s)
    {
      hide Links, Mirrored, Erased;
      MergeEdges(c, s);
      ghost var succ0, pred0 := succCons, predCons;
      ClearConstraints(c);
      MirroredErase(|rep|, succ0, pred0, succCons, predCons, edges, c);
      LinksCollapse(superNode, rep, rank, clock, c, s);
      edges := Without(edges, c);
      superNode := superNode[c := Super(s)];
      rep, rank, clock := Redirect(rep, {c}, s), rank[c := clock], clock + 1;
    }

    /** `collapseSCCTo`: the graph becomes its quotient by the nodes of `scc`, represented by `s`. */
    method CollapseSccTo(scc: seq<nat>, s: nat)
      requires Valid() && s in scc && forall v :: v in scc ==> v < |rep| && rep[v] == v
      requires forall i, j :: 0 <= i < j < |scc| ==> scc[i] != scc[j]
      modifies this
      ensures Valid() && objVec == old(objVec)
      ensures var C := Others(scc, s); edges == Quotient(old(edges), C, s) && rep == Redirect(old(rep), C, s)
    {
      hide Links, Mirrored;
      ghost var E, rep0, C := edges, rep, {};
      QuotientNone(E, s);
      assert Redirect(rep, {}, s) == rep;
      var i := 0;
      while i < |scc|
        invariant i <= |scc| && Valid() && objVec == old(objVec) && |rep| == |rep0|
        invariant C == Others(scc[..i], s)
        invariant edges == Quotient(E, C, s) && rep == Redirect(rep0, C, s)
      {
        var c := scc[i];
        assert scc[..i + 1] == scc[..i] + [c];
        assert c in scc && c !in C && rep[c] == c && rep[s] == s;
        if c != s {
          QuotientStep(E, C, s, c);
          CollapseNode(c, s);
          assert Redirect(Redirect(rep0, C, s), {c}, s) == Redirect(rep0, C + {c}, s);
          C := C + {c};
        }
        i := i + 1;
      }
      assert scc[..i] == scc;
    }
  }
}
