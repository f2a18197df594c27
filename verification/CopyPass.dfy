/**
 * The work lists of the partial-update solver, and why one pass over the popped components
 * satisfies every copy edge although `shouldProcessCopy` skips some
 * (src/PointerAnalysis/Solver/PartialUpdateSolver.h:97-148, 171-229).
 */
module CopyPasses {
  import opened Reachability
  import opened Tarjan
  import opened ConstraintSystems
  import opened ConstraintGraphs
  import opened SolverInvariant

  /** An unset bit marks work to do, and a bit vector is later extended with unset bits. */
  predicate Unset(bits: seq<bool>, i: nat) {
    i < |bits| ==> !bits[i]
  }

  /** The copy work list, the load/store work list, the targets of new copy edges, and the edge-hash bits. */
  datatype Flags = Flags(copyWork: seq<bool>, lsWork: seq<bool>, target: seq<bool>, required: set<nat>)

  type Hash = (nat, nat) -> nat

  /** `shouldProcessCopy`. */
  predicate ShouldProcess(fl: Flags, hash: Hash, a: nat, b: nat) {
    || Unset(fl.lsWork, a)
    || (Unset(fl.target, b) && Unset(fl.copyWork, a) && hash(a, b) in fl.required)
  }

  /** Between rounds: every unsatisfied copy edge starts at a node of the copy work list and will be processed. */
  ghost predicate EdgesPending(net: Net, fl: Flags, hash: Hash) {
    forall e :: e in net.edges && e.kind == Copy ==>
      Satisfied(net.pts, e.src, e.dst) || (Unset(fl.copyWork, e.src) && ShouldProcess(fl, hash, e.src, e.dst))
  }

  /** A node whose load and store edges are not on the work list has dereferenced all it points to. */
  ghost predicate DerefsPending(net: Net, fl: Flags)
    requires Sized(net)
  {
    forall v: nat :: v < net.sys.n && net.rep[v] == v ==> Unset(fl.lsWork, v) || Expanded(net, v)
  }

  /** Changed nodes are on the copy work list, and collapsed nodes never are. */
  ghost predicate WorkOk(net: Net, fl: Flags)
    requires RepsOk(net.sys.n, net.rep)
  {
    && (forall v: nat :: v < net.sys.n && net.rep[v] == v && Unset(fl.lsWork, v) ==> Unset(fl.copyWork, v))
    && (forall v: nat :: v < net.sys.n && Unset(fl.copyWork, v) ==> net.rep[v] == v)
  }

  ghost predicate Pending(net: Net, fl: Flags, hash: Hash) {
    Good(net) && EdgesPending(net, fl, hash) && DerefsPending(net, fl) && WorkOk(net, fl)
  }

  /** The component of `v` has not been popped: those from `i` on have been. */
  ghost predicate Unpopped(comp: map<nat, nat>, i: nat, v: nat) {
    v in comp && comp[v] < i
  }

  /** Unpopped nodes are untouched: still representatives, with the children they had. */
  ghost predicate Untouched(net: Net, adj: Adj, comp: map<nat, nat>, i: nat) {
    forall v: nat :: Unpopped(comp, i, v) ==>
      && v < |adj| && v < |net.rep| && net.rep[v] == v
      && forall b :: Edge(Copy, v, b) in net.edges <==> b in adj[v]
  }

  ghost predicate EdgeState(net: Net, fl: Flags, hash: Hash, comp: map<nat, nat>, i: nat, e: Edge) {
    || Satisfied(net.pts, e.src, e.dst)
    || (Unpopped(comp, i, e.src) && ShouldProcess(fl, hash, e.src, e.dst))
  }

  /** Every copy edge is satisfied or will be processed by a component still to be popped. */
  ghost predicate PassState(net: Net, fl: Flags, hash: Hash, comp: map<nat, nat>, i: nat) {
    forall e :: e in net.edges && e.kind == Copy ==> EdgeState(net, fl, hash, comp, i, e)
  }

  /** As `PassState`, but `cur` is being processed: only its edges into `done` are known to be satisfied. */
  ghost predicate PassBut(net: Net, fl: Flags, hash: Hash, comp: map<nat, nat>, i: nat, cur: nat, done: set<nat>) {
    forall e :: e in net.edges && e.kind == Copy ==>
      if e.src == cur then
        Unpopped(comp, i, e.dst) && (e.dst in done ==> Satisfied(net.pts, e.src, e.dst))
      else EdgeState(net, fl, hash, comp, i, e)
  }

  function Reset(bits: seq<bool>, i: nat): (r: seq<bool>)
    ensures |r| == |bits|
    ensures forall j: nat :: Unset(r, j) <==> Unset(bits, j) || j == i
  {
    if i < |bits| then bits[i := false] else bits
  }

  /** Processing one edge of `cur` leaves the rest of the pass in order. */
  lemma UnionPasses(net: Net, fl: Flags, hash: Hash, comp: map<nat, nat>, i: nat, cur: nat, done: set<nat>, c: nat)
    requires Sized(net) && PassBut(net, fl, hash, comp, i, cur, done) && Edge(Copy, cur, c) in net.edges
    ensures c < |net.pts| && cur < |net.pts|
    ensures var net' := net.(pts := net.pts[c := net.pts[c] + net.pts[cur]]);
      var fl' := if net.pts[cur] <= net.pts[c] then fl else fl.(lsWork := Reset(fl.lsWork, c));
      PassBut(net', fl', hash, comp, i, cur, done + {c})
  {
    hide IsAnon;
    var net' := net.(pts := net.pts[c := net.pts[c] + net.pts[cur]]);
    var fl' := if net.pts[cur] <= net.pts[c] then fl else fl.(lsWork := Reset(fl.lsWork, c));
    forall e | e in net.edges && e.kind == Copy
      ensures if e.src == cur then
          Unpopped(comp, i, e.dst) && (e.dst in done + {c} ==> Satisfied(net'.pts, e.src, e.dst))
        else EdgeState(net', fl', hash, comp, i, e)
    {
      if e.src == c {
        assert Unpopped(comp, i, c) by {
          assert Edge(Copy, cur, c) in net.edges;
        }
        if net.pts[cur] <= net.pts[c] {
          assert net.pts[c] + net.pts[cur] == net.pts[c];
        }
      }
    }
  }

  /** Processing one edge keeps every handled dereference complete. */
  lemma UnionDerefs(net: Net, fl: Flags, cur: nat, c: nat)
    requires Sized(net) && DerefsPending(net, fl) && cur < |net.pts| && c < |net.pts| && !IsAnon(net.sys.objVec, c)
    ensures var net' := net.(pts := net.pts[c := net.pts[c] + net.pts[cur]]);
      var fl' := if net.pts[cur] <= net.pts[c] then fl else fl.(lsWork := Reset(fl.lsWork, c));
      Sized(net') && DerefsPending(net', fl')
  {
    var net' := net.(pts := net.pts[c := net.pts[c] + net.pts[cur]]);
    var fl' := if net.pts[cur] <= net.pts[c] then fl else fl.(lsWork := Reset(fl.lsWork, c));
    UnionPointed(net.sys, net.pts, cur, c);
    hide Wired, Pointed;
    forall v: nat | v < net.sys.n && net.rep[v] == v
      ensures Unset(fl'.lsWork, v) || Expanded(net', v)
    {
      if !Unset(fl'.lsWork, v) {
        assert Expanded(net, v);
        assert net'.pts[v] == net.pts[v];
      }
    }
  }

  /** Popping a single node: its edges lead to nodes still to be popped. */
  lemma PopSingle(net: Net, fl: Flags, hash: Hash, adj: Adj, comp: map<nat, nat>, i: nat, cur: nat)
    requires EdgesLive(net.rep, net.edges) && PassState(net, fl, hash, comp, i + 1) && Untouched(net, adj, comp, i + 1)
    requires Ordered(adj, comp) && cur in comp && forall v :: v in comp && comp[v] == i <==> v == cur
    ensures PassBut(net, fl, hash, comp, i, cur, {}) && Untouched(net, adj, comp, i)
    ensures forall e :: e in net.edges && e.kind == Copy && e.src == cur ==>
              Satisfied(net.pts, cur, e.dst) || ShouldProcess(fl, hash, cur, e.dst)
  {
    forall v: nat | Unpopped(comp, i, v)
      ensures Unpopped(comp, i + 1, v)
    {
    }
    forall e | e in net.edges && e.kind == Copy
      ensures if e.src == cur then Unpopped(comp, i, e.dst) else EdgeState(net, fl, hash, comp, i, e)
      ensures e.src == cur ==> Satisfied(net.pts, cur, e.dst) || ShouldProcess(fl, hash, cur, e.dst)
    {
      assert EdgeState(net, fl, hash, comp, i + 1, e);
      if e.src == cur {
        assert Unpopped(comp, i + 1, cur);
        assert e == Edge(Copy, cur, e.dst);
      }
    }
  }

  /** Once all edges of `cur` are satisfied it counts as popped. */
  lemma PopDone(net: Net, fl: Flags, hash: Hash, comp: map<nat, nat>, i: nat, cur: nat, done: set<nat>)
    requires PassBut(net, fl, hash, comp, i, cur, done)
    requires forall b :: Edge(Copy, cur, b) in net.edges ==> b in done
    ensures PassState(net, fl, hash, comp, i)
  {
    forall e | e in net.edges && e.kind == Copy
      ensures EdgeState(net, fl, hash, comp, i, e)
    {
      assert e.src == cur ==> e == Edge(Copy, cur, e.dst);
    }
  }

  /** More unset bits only add work. */
  ghost predicate MoreWork(fl: Flags, fl': Flags) {
    && fl'.copyWork == fl.copyWork && fl'.required == fl.required
    && (forall j: nat :: Unset(fl.lsWork, j) ==> Unset(fl'.lsWork, j))
    && (forall j: nat :: Unset(fl.target, j) ==> Unset(fl'.target, j))
  }

  /** The component `C + {s}` is the one numbered `i`. */
  ghost predicate IsComponent(comp: map<nat, nat>, i: nat, C: set<nat>, s: nat) {
    s !in C && forall v :: v in comp && comp[v] == i <==> v == s || v in C
  }

  /** Where the source of a copy edge that the collapse keeps is not the component, the edge keeps its state. */
  lemma CollapseEdge(net: Net, fl: Flags, hash: Hash, adj: Adj, comp: map<nat, nat>, i: nat,
                     C: set<nat>, s: nat, pts': seq<set<nat>>, fl': Flags, f: Edge)
    requires EdgesLive(net.rep, net.edges) && |net.pts| == |net.rep|
    requires PassState(net, fl, hash, comp, i + 1) && Untouched(net, adj, comp, i + 1) && Ordered(adj, comp)
    requires IsComponent(comp, i, C, s) && PtsMerged(net.pts, pts', C, s) && MoreWork(fl, fl')
    requires f in net.edges && f.kind == Copy && !SelfCopy(MergeEdge(C, s, f))
    ensures var e := MergeEdge(C, s, f);
      if e.src == s then Unpopped(comp, i, e.dst)
      else EdgeState(net.(pts := pts'), fl', hash, comp, i, e)
  {
    assert EdgeState(net, fl, hash, comp, i + 1, f);
    assert f == Edge(Copy, f.src, f.dst);
    if f.src == s || f.src in C {
      assert Unpopped(comp, i + 1, f.src);
      assert f.dst in adj[f.src];
    } else if f.dst == s || f.dst in C {
      assert !Unpopped(comp, i + 1, f.src);
      assert Satisfied(net.pts, f.src, f.dst);
    }
  }

  lemma CollapsePasses(net: Net, fl: Flags, hash: Hash, adj: Adj, comp: map<nat, nat>, i: nat,
                       C: set<nat>, s: nat, pts': seq<set<nat>>, fl': Flags)
    requires EdgesLive(net.rep, net.edges) && |net.pts| == |net.rep|
    requires PassState(net, fl, hash, comp, i + 1) && Untouched(net, adj, comp, i + 1) && Ordered(adj, comp)
    requires IsComponent(comp, i, C, s) && PtsMerged(net.pts, pts', C, s) && MoreWork(fl, fl')
    ensures var net' := Net(net.sys, Redirect(net.rep, C, s), Quotient(net.edges, C, s), pts');
      PassBut(net', fl', hash, comp, i, s, {}) && Untouched(net', adj, comp, i)
  {
    var net' := Net(net.sys, Redirect(net.rep, C, s), Quotient(net.edges, C, s), pts');
    forall e | e in net'.edges && e.kind == Copy
      ensures if e.src == s then Unpopped(comp, i, e.dst) else EdgeState(net', fl', hash, comp, i, e)
    {
      var f :| f in net.edges && !SelfCopy(MergeEdge(C, s, f)) && e == MergeEdge(C, s, f);
      CollapseEdge(net, fl, hash, adj, comp, i, C, s, pts', fl', f);
    }
    CollapseUntouched(net, adj, comp, i, C, s, pts');
  }

  lemma CollapseUntouched(net: Net, adj: Adj, comp: map<nat, nat>, i: nat, C: set<nat>, s: nat, pts': seq<set<nat>>)
    requires EdgesLive(net.rep, net.edges) && Untouched(net, adj, comp, i + 1) && Ordered(adj, comp) && IsComponent(comp, i, C, s)
    ensures Untouched(Net(net.sys, Redirect(net.rep, C, s), Quotient(net.edges, C, s), pts'), adj, comp, i)
  {
    var E' := Quotient(net.edges, C, s);
    forall v: nat | Unpopped(comp, i, v)
      ensures v < |adj| && v < |net.rep| && Merge(C, s, net.rep[v]) == v
      ensures forall b :: Edge(Copy, v, b) in E' <==> b in adj[v]
    {
      assert Unpopped(comp, i + 1, v);
      assert v !in C && v != s;
      forall b: nat | b in adj[v]
        ensures Edge(Copy, v, b) in E'
      {
        assert Edge(Copy, v, b) in net.edges;
        assert MergeEdge(C, s, Edge(Copy, v, b)) == Edge(Copy, v, b);
      }
      forall b: nat | Edge(Copy, v, b) in E'
        ensures b in adj[v]
      {
        var f :| f in net.edges && !SelfCopy(MergeEdge(C, s, f)) && Edge(Copy, v, b) == MergeEdge(C, s, f);
        assert f == Edge(Copy, v, f.dst);
        assert f.dst in adj[v];
      }
    }
  }

  /** Collapsing keeps every handled dereference complete. */
  lemma CollapseDerefs(net: Net, fl: Flags, C: set<nat>, s: nat, pts': seq<set<nat>>, fl': Flags)
    requires Sized(net) && DerefsPending(net, fl) && s !in C && PtsMerged(net.pts, pts', C, s) && MoreWork(fl, fl')
    requires s < net.sys.n && net.rep[s] == s && Unset(fl'.lsWork, s)
    requires forall v :: v in C ==> v < net.sys.n && net.rep[v] == v
    requires Sized(Net(net.sys, Redirect(net.rep, C, s), Quotient(net.edges, C, s), pts'))
    ensures DerefsPending(Net(net.sys, Redirect(net.rep, C, s), Quotient(net.edges, C, s), pts'), fl')
  {
    var net' := Net(net.sys, Redirect(net.rep, C, s), Quotient(net.edges, C, s), pts');
    forall v: nat | v < net.sys.n && net'.rep[v] == v && !Unset(fl'.lsWork, v)
      ensures Expanded(net', v)
    {
      assert v != s && v !in C && net.rep[v] == v;
      assert Expanded(net, v);
      forall e, o | e in net'.edges && (e.kind == Load || e.kind == Store) && Pointer(e) == v && o in net'.pts[v]
        ensures Present(net'.edges, Derived(net'.sys.objVec, net'.rep, e, o))
      {
        var f :| f in net.edges && !SelfCopy(MergeEdge(C, s, f)) && e == MergeEdge(C, s, f);
        assert Pointer(f) == v && o in net.pts[v];
        assert Present(net.edges, Derived(net.sys.objVec, net.rep, f, o));
        assert Derived(net'.sys.objVec, net'.rep, e, o) == MergeEdge(C, s, Derived(net.sys.objVec, net.rep, f, o));
      }
    }
  }

  /** Every solution gives the nodes of the component about to be popped the same set. */
  lemma ComponentAgrees(net: Net, adj: Adj, comp: map<nat, nat>, i: nat, C: set<nat>, s: nat, q: seq<set<nat>>)
    requires Sized(net) && |q| >= net.sys.n && Sound(net, q) && Untouched(net, adj, comp, i + 1)
    requires Ordered(adj, comp) && StronglyConnected(adj, comp) && IsComponent(comp, i, C, s)
    ensures Agrees(q, C, s)
  {
    hide Reach;
    forall v: nat | v in C + {s}
      ensures v < |q|
    {
      assert Unpopped(comp, i + 1, v);
    }
    forall v: nat, w: nat | v in C + {s} && w in C + {s}
      ensures q[v] <= q[w]
    {
      var X := set x | x in comp && comp[x] < i + 1 && x < |q| && q[v] <= q[x];
      forall x: nat, y: nat | x in X && x < |adj| && y in adj[x]
        ensures y in X
      {
        assert Unpopped(comp, i + 1, x);
        assert Edge(Copy, x, y) in net.edges;
      }
      ReachStays(adj, X, v, w);
    }
    assert s in C + {s} && forall v :: v in C ==> v in C + {s};
  }

  /** A component of more than one node has no anonymous node: each of its nodes has an incoming copy edge. */
  lemma ComponentNotAnon(net: Net, adj: Adj, comp: map<nat, nat>, i: nat, v: nat, w: nat)
    requires Sized(net) && Untouched(net, adj, comp, i + 1) && Ordered(adj, comp) && StronglyConnected(adj, comp)
    requires v in comp && w in comp && comp[v] == comp[w] == i && v != w
    ensures !IsAnon(net.sys.objVec, v)
  {
    var p :| IsPath(adj, w, p, v);
    LastEdge(adj, comp, i, w, p, v);
    var u :| u in comp && comp[u] <= i && u < |adj| && v in adj[u];
    assert Unpopped(comp, i + 1, u);
    assert Edge(Copy, u, v) in net.edges;
  }

  lemma {:induction false} LastEdge(adj: Adj, comp: map<nat, nat>, i: nat, a: nat, p: seq<nat>, b: nat)
    requires Ordered(adj, comp) && a in comp && comp[a] <= i && IsPath(adj, a, p, b) && p != []
    ensures exists u :: u in comp && comp[u] <= i && u < |adj| && b in adj[u]
    decreases |p|
  {
    if |p| > 1 {
      LastEdge(adj, comp, i, p[0], p[1..], b);
    } else {
      assert p[0] == b;
    }
  }

  /** The state at the start of a pass: everything unsatisfied starts at a node that will be popped. */
  lemma PassStarts(net: Net, fl: Flags, hash: Hash, adj: Adj, comp: map<nat, nat>, n: nat)
    requires Pending(net, fl, hash) && |adj| == net.sys.n
    requires forall v: nat, b: nat :: v < |adj| ==> (Edge(Copy, v, b) in net.edges <==> b in adj[v])
    requires forall v :: v in comp ==> comp[v] < n
    requires forall v: nat :: v < net.sys.n && Unset(fl.copyWork, v) ==> v in comp
    requires Ordered(adj, comp) && forall v :: v in comp ==> v < |adj| && net.rep[v] == v
    ensures PassState(net, fl, hash, comp, n) && Untouched(net, adj, comp, n)
  {
  }

  /** At the end of a pass every copy edge is satisfied. */
  lemma PassEnds(net: Net, fl: Flags, hash: Hash, comp: map<nat, nat>)
    requires PassState(net, fl, hash, comp, 0)
    ensures CopiesDone(net)
  {
    forall e | e in net.edges && e.kind == Copy
      ensures Satisfied(net.pts, e.src, e.dst)
    {
      assert EdgeState(net, fl, hash, comp, 0, e);
    }
  }

  lemma UnpoppedKnown(net: Net, adj: Adj, comp: map<nat, nat>, i: nat, v: nat)
    requires Untouched(net, adj, comp, i) && Unpopped(comp, i, v)
    ensures v < |net.rep| && net.rep[v] == v
  {
  }

  /** An edge that `shouldProcessCopy` skips is already satisfied. */
  lemma SkipPasses(net: Net, fl: Flags, hash: Hash, comp: map<nat, nat>, i: nat, cur: nat, done: set<nat>, c: nat)
    requires PassBut(net, fl, hash, comp, i, cur, done) && Satisfied(net.pts, cur, c)
    ensures PassBut(net, fl, hash, comp, i, cur, done + {c})
  {
  }

  lemma MergeStart(pts: seq<set<nat>>, s: nat)
    requires s < |pts|
    ensures PtsMerged(pts, pts, {}, s)
  {
  }

  lemma MergeStep(pts: seq<set<nat>>, pts1: seq<set<nat>>, C: set<nat>, s: nat, c: nat)
    requires PtsMerged(pts, pts1, C, s) && s !in C && c !in C && c != s && c < |pts|
    ensures PtsMerged(pts, pts1[s := pts1[s] + pts1[c]][c := {}], C + {c}, s)
  {
    assert pts1[c] == pts[c];
    var pts2 := pts1[s := pts1[s] + pts1[c]][c := {}];
    forall o | o in pts2[s]
      ensures exists v :: (v == s || v in C + {c}) && v < |pts| && o in pts[v]
    {
      if o in pts1[s] {
        var v :| (v == s || v in C) && v < |pts| && o in pts[v];
        assert v == s || v in C + {c};
      } else {
        assert o in pts[c] && c in C + {c};
      }
    }
  }

  /** Collapsing the component numbered `i`: the state stays good, and only the edges of `s` are left to process. */
  lemma CollapseComponent(net: Net, fl: Flags, hash: Hash, adj: Adj, comp: map<nat, nat>, i: nat,
                          C: set<nat>, s: nat, pts': seq<set<nat>>, fl': Flags)
    requires Good(net) && PassState(net, fl, hash, comp, i + 1) && Untouched(net, adj, comp, i + 1) && DerefsPending(net, fl)
    requires Ordered(adj, comp) && StronglyConnected(adj, comp) && IsComponent(comp, i, C, s) && C != {}
    requires PtsMerged(net.pts, pts', C, s) && MoreWork(fl, fl') && Unset(fl'.lsWork, s)
    ensures var net' := Net(net.sys, Redirect(net.rep, C, s), Quotient(net.edges, C, s), pts');
      && Good(net') && PassBut(net', fl', hash, comp, i, s, {}) && Untouched(net', adj, comp, i) && DerefsPending(net', fl')
  {
    forall v: nat | v in C + {s}
      ensures v < net.sys.n && net.rep[v] == v && !IsAnon(net.sys.objVec, v)
    {
      assert Unpopped(comp, i + 1, v);
      var w :| w in C;
      ComponentNotAnon(net, adj, comp, i, v, if v == s then w else s);
    }
    assert s in C + {s} && forall v :: v in C ==> v in C + {s};
    forall q | Fits(net.sys, q)
      ensures Agrees(q, C, s)
    {
      assert Sound(net, q);
      ComponentAgrees(net, adj, comp, i, C, s, q);
    }
    hide Reach, IsAnon, PassState, Untouched, DerefsPending;
    CollapseKeeps(net, C, s, pts');
    CollapsePasses(net, fl, hash, adj, comp, i, C, s, pts', fl');
    CollapseDerefs(net, fl, C, s, pts', fl');
  }

  /** The representatives. */
  ghost function Live(rep: seq<nat>): set<nat> {
    set v | 0 <= v < |rep| && rep[v] == v
  }

  /** Either nothing was collapsed and no edge changed, or there are fewer representatives. */
  ghost predicate Shrunk(rep: seq<nat>, E: set<Edge>, rep': seq<nat>, E': set<Edge>) {
    (rep' == rep && E' == E) || Live(rep') < Live(rep)
  }

  lemma RedirectShrinks(rep: seq<nat>, C: set<nat>, s: nat, c: nat)
    requires c in C && s !in C && c < |rep| && s < |rep| && rep[c] == c && rep[s] == s
    requires forall v :: v in C ==> v < |rep|
    ensures Live(Redirect(rep, C, s)) < Live(rep)
  {
    assert c in Live(rep) && c !in Live(Redirect(rep, C, s));
  }

  /** Only representatives are reachable from representatives. */
  lemma ReachableLive(net: Net, adj: Adj, roots: set<nat>, v: nat)
    requires EdgesLive(net.rep, net.edges) && |adj| == |net.rep|
    requires forall v: nat, b: nat :: v < |adj| ==> (Edge(Copy, v, b) in net.edges <==> b in adj[v])
    requires forall r :: r in roots ==> r < |net.rep| && net.rep[r] == r
    requires FromRoot(adj, roots, v)
    ensures v < |net.rep| && net.rep[v] == v
  {
    var r :| r in roots && Reach(adj, r, v);
    forall a: nat, b: nat | a in Live(net.rep) && a < |adj| && b in adj[a]
      ensures b in Live(net.rep)
    {
      assert Edge(Copy, a, b) in net.edges;
    }
    ReachStays(adj, Live(net.rep), r, v);
  }

  /** A new copy edge that `recordCopyEdge` has seen will be processed. */
  lemma RecordPending(net: Net, fl: Flags, hash: Hash, e: Edge)
    requires EdgesPending(net, fl, hash) && e.kind == Copy
    ensures EdgesPending(net.(edges := net.edges + {e}),
              Flags(Reset(fl.copyWork, e.src), fl.lsWork, Reset(fl.target, e.dst), fl.required + {hash(e.src, e.dst)}), hash)
  {
  }

  lemma RecordWork(net: Net, E': set<Edge>, fl: Flags, hash: Hash, e: Edge)
    requires RepsOk(net.sys.n, net.rep) && WorkOk(net, fl) && e.src < net.sys.n && net.rep[e.src] == e.src
    ensures WorkOk(net.(edges := E'),
              Flags(Reset(fl.copyWork, e.src), fl.lsWork, Reset(fl.target, e.dst), fl.required + {hash(e.src, e.dst)}))
  {
  }

  /** Copy edges added since `net` leave every complete dereference complete. */
  lemma DerefsGrow(net: Net, E': set<Edge>)
    requires Good(net) && Good(net.(edges := E')) && net.edges <= E' && forall e :: e in E' - net.edges ==> e.kind == Copy
    ensures forall v: nat :: v < net.sys.n && Expanded(net, v) ==> Expanded(net.(edges := E'), v)
    ensures forall e :: EdgeExpanded(net, e) ==> EdgeExpanded(net.(edges := E'), e)
  {
    hide Wired, Pointed, AllSound;
    forall v: nat | v < net.sys.n && Expanded(net, v)
      ensures Expanded(net.(edges := E'), v)
    {
      ExpandedGrows(net, E', v);
    }
  }

  /** All handled nodes and all nodes before `id`, or all of them if `id` is -1, have been dereferenced. */
  ghost predicate ExpandedUpTo(net: Net, ls: seq<bool>, id: int) {
    Sized(net) && |ls| == net.sys.n && forall v: nat :: v < net.sys.n && (v < id || id == -1 || ls[v]) && net.rep[v] == v ==> Expanded(net, v)
  }

  lemma ExpandedStart(net: Net, fl: Flags, id: int)
    requires Sized(net) && DerefsPending(net, fl) && |fl.lsWork| == net.sys.n
    requires -1 <= id < net.sys.n && forall v :: 0 <= v < net.sys.n && (v < id || id == -1) ==> fl.lsWork[v]
    ensures ExpandedUpTo(net, fl.lsWork, id)
  {
    hide Expanded;
  }

  /** After `last` has been dereferenced, the next node to look at is the next unset one. */
  lemma ExpandedNext(net: Net, E': set<Edge>, ls: seq<bool>, last: nat, id: int)
    requires Good(net) && Good(net.(edges := E')) && net.edges <= E' && forall e :: e in E' - net.edges ==> e.kind == Copy
    requires ExpandedUpTo(net, ls, last) && last < net.sys.n && Expanded(net.(edges := E'), last)
    requires -1 <= id < net.sys.n && (id == -1 || last < id) && forall v :: last < v < net.sys.n && (v < id || id == -1) ==> ls[v]
    ensures ExpandedUpTo(net.(edges := E'), ls, id)
  {
    DerefsGrow(net, E');
    hide Expanded, Wired, Pointed, AllSound;
  }

  lemma ExpandedAll(net: Net, ls: seq<bool>, fl: Flags)
    requires ExpandedUpTo(net, ls, -1)
    ensures AllExpanded(net) && DerefsPending(net, fl)
  {
    hide Expanded;
  }

  /** With all copy edges satisfied nothing is queued. */
  lemma QuietQueued(net: Net, fl: Flags, hash: Hash)
    requires RepsOk(net.sys.n, net.rep) && CopiesDone(net)
    requires forall v: nat :: v < net.sys.n ==> !Unset(fl.copyWork, v) && !Unset(fl.lsWork, v)
    ensures EdgesPending(net, fl, hash) && WorkOk(net, fl)
  {
  }

  predicate AllSet(bits: seq<bool>, n: nat) {
    |bits| == n && forall v :: 0 <= v < n ==> bits[v]
  }

  /** An empty copy work list means that all copy edges are satisfied. */
  lemma QuietCopies(net: Net, fl: Flags, hash: Hash)
    requires EdgesPending(net, fl, hash) && EdgesLive(net.rep, net.edges) && AllSet(fl.copyWork, |net.rep|)
    ensures CopiesDone(net)
  {
  }

  /** The copy edges between the first `n` nodes that are not there yet. */
  ghost function Absent(n: nat, E: set<Edge>): set<Edge> {
    set a, b | a in Numbers(n) && b in Numbers(n) && Edge(Copy, a, b) !in E :: Edge(Copy, a, b)
  }

  lemma AbsentShrinks(rep: seq<nat>, E: set<Edge>, E': set<Edge>)
    requires E <= E' && E != E' && EdgesLive(rep, E') && forall e :: e in E' - E ==> e.kind == Copy
    ensures Absent(|rep|, E') < Absent(|rep|, E)
  {
    var e :| e in E' && e !in E;
    assert e == Edge(Copy, e.src, e.dst);
    assert e in Absent(|rep|, E) && e !in Absent(|rep|, E');
  }

  /** New nodes without copy, load or store edges are on the extended work lists, and disturb nothing. */
  lemma GrowPending(net: Net, net': Net, fl: Flags, hash: Hash)
    requires Pending(net, fl, hash) && Good(net') && |fl.copyWork| <= net.sys.n && |fl.lsWork| <= net.sys.n
    requires net.rep <= net'.rep && net.pts <= net'.pts && net.sys.objVec <= net'.sys.objVec && net.edges <= net'.edges
    requires forall e :: e in net'.edges - net.edges ==> e.kind == AddrOf
    requires forall v :: |net.rep| <= v < |net'.rep| ==> net'.rep[v] == v
    ensures Pending(net', fl, hash)
  {
    hide IsAnon, AllSound, Reflects, Justified;
    GoodSizes(net');
    forall v: nat | v < net'.sys.n && net'.rep[v] == v && !Unset(fl.lsWork, v)
      ensures Expanded(net', v)
    {
      assert v < net.sys.n && net.rep[v] == net'.rep[v] && net.pts[v] == net'.pts[v];
      assert Expanded(net, v);
      forall e, o | e in net'.edges && (e.kind == Load || e.kind == Store) && Pointer(e) == v && o in net'.pts[v]
        ensures Present(net'.edges, Derived(net'.sys.objVec, net'.rep, e, o))
      {
        assert Present(net.edges, Derived(net.sys.objVec, net.rep, e, o));
      }
    }
  }

  /** Only the list of given constraints has changed. */
  ghost predicate SameNet(net: Net, net': Net) {
    net'.rep == net.rep && net'.pts == net.pts && net'.sys.n == net.sys.n && net'.sys.objVec == net.sys.objVec
  }

  lemma SamePending(net: Net, net': Net, fl: Flags, hash: Hash)
    requires Pending(net, fl, hash) && Good(net') && SameNet(net, net') && net'.edges == net.edges
    ensures Pending(net', fl, hash)
  {
    GoodSizes(net');
    hide AllSound, Reflects, Justified, Wired, Pointed;
    forall v: nat | v < net'.sys.n && net'.rep[v] == v
      ensures Unset(fl.lsWork, v) || Expanded(net', v)
    {
      assert Unset(fl.lsWork, v) || Expanded(net, v);
    }
  }

  lemma GrowDerefs(net: Net, net': Net, fl: Flags)
    requires Sized(net) && Sized(net') && DerefsPending(net, fl) && SameNet(net, net') && net.edges <= net'.edges
    requires forall e :: e in net'.edges - net.edges ==> e.kind == Copy
    ensures DerefsPending(net', fl)
  {
    assert RepsOk(net'.sys.n, net'.rep);
    hide Wired, Pointed;
    forall v: nat | v < net'.sys.n && net'.rep[v] == v
      ensures Unset(fl.lsWork, v) || Expanded(net', v)
    {
      assert Unset(fl.lsWork, v) || Expanded(net, v);
    }
  }

  /** A new copy edge from a new node is queued as it is; from an old node, once it is recorded. */
  lemma CopyPending(net: Net, net': Net, fl: Flags, hash: Hash, f: Edge)
    requires Pending(net, fl, hash) && Good(net') && SameNet(net, net') && net'.edges == net.edges + {f}
    requires f.kind == Copy && |fl.copyWork| == |fl.lsWork|
    ensures f.src >= |fl.copyWork| ==> Pending(net', fl, hash)
    ensures Pending(net', Flags(Reset(fl.copyWork, f.src), fl.lsWork, Reset(fl.target, f.dst), fl.required + {hash(f.src, f.dst)}), hash)
  {
    GoodSizes(net');
    assert EdgesLive(net'.rep, net'.edges);
    GrowDerefs(net, net', fl);
    RecordPending(net, fl, hash, f);
    RecordWork(net, net'.edges, fl, hash, f);
    hide AllSound, Reflects, Justified, Wired, Pointed, Expanded;
  }

  /** A new load or store edge leaves the copy edges queued as they are. */
  lemma DerefQueued(net: Net, net': Net, fl: Flags, hash: Hash, f: Edge)
    requires Pending(net, fl, hash) && Good(net') && SameNet(net, net') && net'.edges == net.edges + {f}
    requires f.kind == Load || f.kind == Store
    ensures EdgesPending(net', fl, hash) && WorkOk(net', fl)
  {
    hide AllSound, Reflects, Justified, Wired, Pointed, Expanded;
  }

  /** Once a new load or store edge at a handled node has been dereferenced, all handled nodes are complete again. */
  lemma DerefDone(net: Net, net1: Net, net2: Net, fl: Flags, fl': Flags, f: Edge)
    requires Good(net) && Good(net2) && DerefsPending(net, fl) && fl'.lsWork == fl.lsWork && SameNet(net, net1) && SameNet(net1, net2)
    requires net1.edges == net.edges + {f} && net1.edges <= net2.edges
    requires forall e :: e in net2.edges - net1.edges ==> e.kind == Copy
    requires Unset(fl.lsWork, Pointer(f)) || EdgeExpanded(net2, f)
    ensures DerefsPending(net2, fl')
  {
    GoodSizes(net2);
    hide Sized, AllSound, Reflects, Justified;
    forall v: nat | v < net2.sys.n && net2.rep[v] == v && !Unset(fl.lsWork, v)
      ensures Expanded(net2, v)
    {
      assert Expanded(net, v);
      forall e, o | e in net2.edges && (e.kind == Load || e.kind == Store) && Pointer(e) == v && o in net2.pts[v]
        ensures Present(net2.edges, Derived(net2.sys.objVec, net2.rep, e, o))
      {
        assert e in net1.edges;
        if e in net.edges {
          assert Present(net.edges, Derived(net.sys.objVec, net.rep, e, o));
        }
      }
    }
  }

  /** `BitVector::resize` with unset bits. */
  function Resize(bits: seq<bool>, n: nat): (r: seq<bool>)
    requires |bits| <= n
    ensures |r| == n && forall j: nat :: Unset(r, j) <==> Unset(bits, j)
  {
    bits + seq(n - |bits|, _ => false)
  }

  /** Extending the work lists with unset bits changes no meaning. */
  lemma ResizePending(net: Net, fl: Flags, fl': Flags, hash: Hash)
    requires Pending(net, fl, hash) && fl'.required == fl.required
    requires forall j: nat :: (Unset(fl'.copyWork, j) <==> Unset(fl.copyWork, j)) && (Unset(fl'.lsWork, j) <==> Unset(fl.lsWork, j))
    requires forall j: nat :: Unset(fl'.target, j) <==> Unset(fl.target, j)
    ensures Pending(net, fl', hash)
  {
    hide Good, Expanded, Sized;
    GoodSizes(net);
  }

  /** A fixpoint is a state with nothing pending. */
  lemma FixpointPending(net: Net, fl: Flags, hash: Hash)
    requires Good(net) && CopiesDone(net) && AllExpanded(net)
    requires AllSet(fl.copyWork, net.sys.n) && AllSet(fl.lsWork, net.sys.n)
    ensures Pending(net, fl, hash)
  {
    GoodSizes(net);
    hide Good, Expanded, Sized;
  }
}
