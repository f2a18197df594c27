/**
 * The depth-first state behind the iterative strongly-connected-component iterator
 * (src/PointerAnalysis/Graph/ConstraintGraph/SCCIterator.h) and the invariant every step keeps.
 */
module Tarjan {
  import opened Reachability

  /** The visit number `~0U` that marks a node whose component has been emitted. */
  const DONE: nat := 0xFFFF_FFFF

  /** One entry of the visit stack: the node, the children not looked at yet, the lowest visit number seen. */
  datatype Frame = Frame(node: nat, todo: set<nat>, min: nat)

  /**
   * `num` are the visit numbers, `stack` the nodes whose component is still open, `frames` the
   * depth-first path, `out` the components emitted so far and `comp` the position of a node in `out`.
   */
  datatype Dfs = Dfs(num: map<nat, nat>, stack: seq<nat>, frames: seq<Frame>,
                     out: seq<seq<nat>>, comp: map<nat, nat>)

  ghost predicate Distinct(s: seq<nat>) {
    forall i, j :: 0 <= i < j < |s| ==> s[i] != s[j]
  }

  ghost predicate Numbered(adj: Adj, d: Dfs) {
    && d.comp.Keys <= d.num.Keys
    && forall v :: v in d.num ==>
         && v < |adj|
         && (v in d.comp <==> d.num[v] == DONE)
         && (v !in d.comp ==> 1 <= d.num[v] <= |d.num|)
  }

  /** `v` has been visited and its component is still open. */
  ghost predicate Open(d: Dfs, v: nat) {
    v in d.num && v !in d.comp
  }

  /** The node stack holds exactly the open nodes, in the order of their visit. */
  ghost predicate Stacked(d: Dfs) {
    && (forall i :: 0 <= i < |d.stack| ==> Open(d, d.stack[i]))
    && (forall i, j :: 0 <= i < j < |d.stack| ==> d.num[d.stack[i]] < d.num[d.stack[j]])
    && (forall v :: Open(d, v) ==> v in d.stack)
  }

  ghost predicate FrameOk(adj: Adj, d: Dfs, f: Frame) {
    Open(d, f.node) && f.node < |adj| && f.todo <= adj[f.node] && f.min <= d.num[f.node]
  }

  ghost predicate Framed(adj: Adj, d: Dfs) {
    && (forall k :: 0 <= k < |d.frames| ==> FrameOk(adj, d, d.frames[k]))
    && (forall k, l :: 0 <= k < l < |d.frames| ==>
          && d.num[d.frames[k].node] < d.num[d.frames[l].node]
          && Reach(adj, d.frames[k].node, d.frames[l].node))
    && (forall v :: Open(d, v) ==> |d.frames| > 0 && d.num[d.frames[0].node] <= d.num[v])
  }

  /** The open node `w` was visited no earlier than the `k`th node of the path, and before the next one. */
  ghost predicate Seg(d: Dfs, k: int, w: nat) {
    && 0 <= k < |d.frames| && Open(d, w) && d.frames[k].node in d.num
    && d.num[d.frames[k].node] <= d.num[w]
    && (k + 1 < |d.frames| ==> d.frames[k + 1].node in d.num && d.num[w] < d.num[d.frames[k + 1].node])
  }

  ghost predicate Linked(adj: Adj, d: Dfs) {
    forall k, w :: Seg(d, k, w) ==> Reach(adj, d.frames[k].node, w) && Reach(adj, w, d.frames[k].node)
  }

  ghost predicate LowWitness(adj: Adj, d: Dfs, k: int, x: nat) {
    0 <= k < |d.frames| && Open(d, x) && d.num[x] == d.frames[k].min && Reach(adj, d.frames[k].node, x)
  }

  ghost predicate HasLow(adj: Adj, d: Dfs, k: int) {
    exists x :: LowWitness(adj, d, k, x)
  }

  ghost predicate LowReached(adj: Adj, d: Dfs) {
    forall k :: 0 <= k < |d.frames| ==> HasLow(adj, d, k)
  }

  /** The child `y` of a stacked node has been looked at by the segment of frame `k`. */
  ghost predicate Seen(adj: Adj, d: Dfs, k: int, w: nat, y: nat) {
    Seg(d, k, w) && w < |adj| && y in adj[w] && (w == d.frames[k].node ==> y !in d.frames[k].todo)
  }

  ghost predicate LowBound(adj: Adj, d: Dfs) {
    forall k, w, y :: Seen(adj, d, k, w, y) ==> y in d.num && d.num[y] >= d.frames[k].min
  }

  /** As `LowBound`, except that the child `c` is about to be entered. */
  ghost predicate LowBoundBut(adj: Adj, d: Dfs, c: nat) {
    forall k, w, y :: Seen(adj, d, k, w, y) && y != c ==> y in d.num && d.num[y] >= d.frames[k].min
  }

  ghost predicate FromRoot(adj: Adj, roots: set<nat>, v: nat) {
    exists r :: r in roots && Reach(adj, r, v)
  }

  ghost predicate Rooted(adj: Adj, roots: set<nat>, d: Dfs) {
    forall v :: v in d.num ==> FromRoot(adj, roots, v)
  }

  /** Component `i` of `out` is a non-empty list, without repetition, of exactly the nodes `comp` maps to `i`. */
  ghost predicate Listed(out: seq<seq<nat>>, comp: map<nat, nat>) {
    && (forall v :: v in comp ==> comp[v] < |out|)
    && (forall i :: 0 <= i < |out| ==> out[i] != [] && Distinct(out[i]) && Members(out[i], i, comp))
  }

  ghost predicate Members(scc: seq<nat>, i: nat, comp: map<nat, nat>) {
    forall v :: v in scc <==> v in comp && comp[v] == i
  }

  ghost predicate StronglyConnected(adj: Adj, comp: map<nat, nat>) {
    forall v, w :: v in comp && w in comp && comp[v] == comp[w] ==> Reach(adj, v, w)
  }

  /** No edge leaves the emitted nodes, and none leads to a component emitted later. */
  ghost predicate Ordered(adj: Adj, comp: map<nat, nat>) {
    forall v, y :: v in comp && v < |adj| && y in adj[v] ==> y in comp && comp[y] <= comp[v]
  }

  ghost predicate Emitted(adj: Adj, out: seq<seq<nat>>, comp: map<nat, nat>) {
    Listed(out, comp) && StronglyConnected(adj, comp) && Ordered(adj, comp)
  }

  /** Everything but the bound on the lowest visit numbers. */
  ghost predicate Shape(adj: Adj, roots: set<nat>, d: Dfs) {
    && IsGraph(adj) && |adj| < DONE && |d.num| <= |adj|
    && Numbered(adj, d) && Stacked(d) && Framed(adj, d)
    && Linked(adj, d) && LowReached(adj, d)
    && Rooted(adj, roots, d) && Emitted(adj, d.out, d.comp)
  }

  ghost predicate Inv(adj: Adj, roots: set<nat>, d: Dfs) {
    Shape(adj, roots, d) && LowBound(adj, d)
  }

  /** The plain facts a caller needs from the invariant. */
  lemma InvBasics(adj: Adj, roots: set<nat>, d: Dfs)
    requires Inv(adj, roots, d)
    ensures |d.num| <= |adj|
    ensures forall v :: v in d.num ==> v < |adj|
    ensures d.comp.Keys <= d.num.Keys
    ensures forall v :: v in d.stack ==> v in d.num
    ensures Distinct(d.stack)
    ensures forall k :: 0 <= k < |d.frames| ==> d.frames[k].node in d.num
  {
    hide Reach;
    forall k | 0 <= k < |d.frames|
      ensures d.frames[k].node in d.num
    {
      assert FrameOk(adj, d, d.frames[k]);
    }
  }

  lemma InvStart(adj: Adj, roots: set<nat>)
    requires IsGraph(adj) && |adj| < DONE
    ensures Inv(adj, roots, Dfs(map[], [], [], [], map[]))
  {
  }

  /** With an empty visit stack every visited node has been emitted. */
  lemma InvDone(adj: Adj, roots: set<nat>, d: Dfs)
    requires Inv(adj, roots, d) && d.frames == []
    ensures d.num.Keys == d.comp.Keys && Emitted(adj, d.out, d.comp)
    ensures forall v :: v in d.comp ==> v < |adj| && FromRoot(adj, roots, v)
  {
    hide Reach;
    assert forall v :: v in d.num ==> !Open(d, v);
  }

  function Numbers(n: nat): (s: set<nat>)
    ensures forall v: int :: v in s <==> 0 <= v < n
  {
    if n == 0 then {} else Numbers(n - 1) + {n - 1}
  }

  /** A set of numbers below `n` has at most `n` elements. */
  lemma {:induction false} BoundedCard(s: set<nat>, n: nat)
    requires forall v :: v in s ==> v < n
    ensures |s| <= n
  {
    if n == 0 {
      assert s == {};
    } else {
      BoundedCard(s - {n - 1}, n - 1);
    }
  }

  /** `DFSVisitOne`: number the node, put it on both stacks. */
  function Enter(adj: Adj, d: Dfs, v: nat): Dfs
    requires v < |adj|
  {
    d.(num := d.num[v := |d.num| + 1], stack := d.stack + [v], frames := d.frames + [Frame(v, adj[v], |d.num| + 1)])
  }

  lemma EnterCard(adj: Adj, d: Dfs, v: nat)
    requires Numbered(adj, d) && v < |adj| && v !in d.num
    ensures |d.num[v := |d.num| + 1]| == |d.num| + 1 <= |adj|
  {
    var num' := d.num[v := |d.num| + 1];
    assert num'.Keys == d.num.Keys + {v};
    BoundedCard(num'.Keys, |adj|);
  }

  lemma EnterStacks(adj: Adj, d: Dfs, v: nat)
    requires Numbered(adj, d) && Stacked(d)
    requires v < |adj| < DONE && v !in d.num
    ensures var e := Enter(adj, d, v);
      |e.num| == |d.num| + 1 <= |adj| && Numbered(adj, e) && Stacked(e)
  {
    hide Reach;
    EnterCard(adj, d, v);
    var e := Enter(adj, d, v);
    assert forall i :: 0 <= i < |d.stack| ==> e.stack[i] == d.stack[i] && Open(d, d.stack[i]);
    assert e.stack[|d.stack|] == v;
  }

  lemma EnterFrames(adj: Adj, d: Dfs, v: nat)
    requires Numbered(adj, d) && Framed(adj, d)
    requires v < |adj| < DONE && v !in d.num
    requires forall k :: 0 <= k < |d.frames| ==> Reach(adj, d.frames[k].node, v)
    ensures Framed(adj, Enter(adj, d, v))
  {
    hide Reach;
    var e := Enter(adj, d, v);
    forall k | 0 <= k < |e.frames|
      ensures FrameOk(adj, e, e.frames[k])
    {
      if k < |d.frames| {
        assert FrameOk(adj, d, d.frames[k]);
      }
    }
  }

  lemma EnterSeg(adj: Adj, d: Dfs, v: nat, k: int, w: nat)
    requires Numbered(adj, d) && Framed(adj, d) && v < |adj| < DONE && v !in d.num
    ensures Seg(Enter(adj, d, v), k, w) <==> (w != v && Seg(d, k, w)) || (k == |d.frames| && w == v)
  {
    var e := Enter(adj, d, v);
    assert 0 <= k < |d.frames| ==> FrameOk(adj, d, d.frames[k]);
    assert 0 <= k + 1 < |d.frames| ==> FrameOk(adj, d, d.frames[k + 1]);
    assert 0 <= k < |d.frames| ==> e.frames[k] == d.frames[k];
    assert 0 <= k + 1 < |d.frames| ==> e.frames[k + 1] == d.frames[k + 1];
  }

  lemma EnterLinked(adj: Adj, d: Dfs, v: nat)
    requires Numbered(adj, d) && Framed(adj, d) && Linked(adj, d) && v < |adj| < DONE && v !in d.num
    ensures Linked(adj, Enter(adj, d, v))
  {
    hide Reach;
    ReachRefl(adj, v);
    var e := Enter(adj, d, v);
    forall k, w: nat | Seg(e, k, w)
      ensures Reach(adj, e.frames[k].node, w) && Reach(adj, w, e.frames[k].node)
    {
      EnterSeg(adj, d, v, k, w);
    }
  }

  lemma EnterLow(adj: Adj, d: Dfs, v: nat)
    requires Numbered(adj, d) && LowReached(adj, d) && v < |adj| < DONE && v !in d.num
    ensures LowReached(adj, Enter(adj, d, v))
  {
    hide Reach;
    ReachRefl(adj, v);
    var e := Enter(adj, d, v);
    forall k | 0 <= k < |e.frames|
      ensures HasLow(adj, e, k)
    {
      if k < |d.frames| {
        assert HasLow(adj, d, k);
        var x: nat :| LowWitness(adj, d, k, x);
        assert LowWitness(adj, e, k, x);
      } else {
        assert LowWitness(adj, e, k, v);
      }
    }
  }

  lemma EnterBound(adj: Adj, d: Dfs, v: nat)
    requires Numbered(adj, d) && Framed(adj, d) && LowBoundBut(adj, d, v) && v < |adj| < DONE && v !in d.num
    ensures LowBound(adj, Enter(adj, d, v))
  {
    hide Reach;
    var e := Enter(adj, d, v);
    forall k, w: nat, y: nat | Seen(adj, e, k, w, y)
      ensures y in e.num && e.num[y] >= e.frames[k].min
    {
      EnterSeg(adj, d, v, k, w);
      if w != v {
        assert FrameOk(adj, d, d.frames[k]);
        assert y != v ==> Seen(adj, d, k, w, y);
      }
    }
  }

  /** Entering an unvisited child or root keeps the invariant. */
  lemma EnterKeeps(adj: Adj, roots: set<nat>, d: Dfs, v: nat)
    requires Shape(adj, roots, d) && LowBoundBut(adj, d, v)
    requires v < |adj| && v !in d.num && FromRoot(adj, roots, v)
    requires forall k :: 0 <= k < |d.frames| ==> Reach(adj, d.frames[k].node, v)
    ensures Inv(adj, roots, Enter(adj, d, v))
  {
    hide Reach;
    EnterStacks(adj, d, v);
    EnterFrames(adj, d, v);
    EnterLinked(adj, d, v);
    EnterLow(adj, d, v);
    EnterBound(adj, d, v);
  }

  /** Starting a new sub graph keeps the invariant. */
  lemma EnterRootKeeps(adj: Adj, roots: set<nat>, d: Dfs, v: nat)
    requires Inv(adj, roots, d) && d.frames == [] && v < |adj| && v !in d.num && v in roots
    ensures Inv(adj, roots, Enter(adj, d, v))
  {
    hide Reach;
    ReachRefl(adj, v);
    assert FromRoot(adj, roots, v);
    EnterKeeps(adj, roots, d, v);
  }

  /** The top frame takes child `c` off its list and lowers its minimum to `m`. */
  function Advance(d: Dfs, c: nat, m: nat): Dfs
    requires d.frames != []
  {
    var t := |d.frames| - 1;
    d.(frames := d.frames[t := Frame(d.frames[t].node, d.frames[t].todo - {c}, m)])
  }

  lemma AdvanceLow(adj: Adj, d: Dfs, c: nat, m: nat)
    requires d.frames != [] && LowReached(adj, d)
    requires var top := d.frames[|d.frames| - 1];
      && top.node < |adj| && c in adj[top.node]
      && m <= top.min && (m == top.min || (Open(d, c) && d.num[c] == m))
    ensures LowReached(adj, Advance(d, c, m))
  {
    hide Reach;
    var e, t := Advance(d, c, m), |d.frames| - 1;
    ReachEdge(adj, d.frames[t].node, c);
    forall k | 0 <= k < |e.frames|
      ensures HasLow(adj, e, k)
    {
      assert HasLow(adj, d, k);
      var x: nat :| LowWitness(adj, d, k, x);
      assert LowWitness(adj, e, k, if k == t && m != d.frames[t].min then c else x);
    }
  }

  lemma AdvanceFrames(adj: Adj, d: Dfs, c: nat, m: nat)
    requires d.frames != [] && Numbered(adj, d) && Framed(adj, d) && LowReached(adj, d) && Linked(adj, d)
    requires var top := d.frames[|d.frames| - 1];
      c in top.todo && m <= top.min && (m == top.min || (Open(d, c) && d.num[c] == m))
    ensures var e := Advance(d, c, m); Framed(adj, e) && LowReached(adj, e) && Linked(adj, e)
  {
    hide Reach;
    assert FrameOk(adj, d, d.frames[|d.frames| - 1]);
    AdvanceLow(adj, d, c, m);
    AdvanceFramed(adj, d, c, m);
    AdvanceLinked(adj, d, c, m);
    hide Framed, LowReached, Linked, Advance;
  }

  lemma AdvanceFramed(adj: Adj, d: Dfs, c: nat, m: nat)
    requires d.frames != [] && Numbered(adj, d) && Framed(adj, d)
    requires var top := d.frames[|d.frames| - 1];
      c in top.todo && m <= top.min && (m == top.min || (Open(d, c) && d.num[c] == m))
    ensures Framed(adj, Advance(d, c, m))
  {
    var e := Advance(d, c, m);
    forall k | 0 <= k < |e.frames|
      ensures FrameOk(adj, e, e.frames[k])
    {
      assert FrameOk(adj, d, d.frames[k]);
    }
  }

  lemma AdvanceLinked(adj: Adj, d: Dfs, c: nat, m: nat)
    requires d.frames != [] && Linked(adj, d)
    ensures Linked(adj, Advance(d, c, m))
  {
    hide Reach;
    var e := Advance(d, c, m);
    forall k, w: nat | Seg(e, k, w)
      ensures Reach(adj, e.frames[k].node, w) && Reach(adj, w, e.frames[k].node)
    {
      assert Seg(d, k, w);
    }
  }

  lemma AdvanceBound(adj: Adj, d: Dfs, c: nat, m: nat)
    requires d.frames != [] && LowBound(adj, d) && m <= d.frames[|d.frames| - 1].min
    ensures LowBoundBut(adj, Advance(d, c, m), c)
    ensures c in d.num && d.num[c] >= m && Numbered(adj, d) && Framed(adj, d) ==> LowBound(adj, Advance(d, c, m))
  {
    hide Reach;
    var e, t := Advance(d, c, m), |d.frames| - 1;
    forall k, w: nat, y: nat | Seen(adj, e, k, w, y) && (y != c || k != t || w != d.frames[t].node)
      ensures y in e.num && e.num[y] >= e.frames[k].min
    {
      assert Seg(d, k, w);
      assert Seen(adj, d, k, w, y);
    }
  }

  /** Looking at a child that was already visited keeps the invariant. */
  lemma SkipKeeps(adj: Adj, roots: set<nat>, d: Dfs, c: nat)
    requires Inv(adj, roots, d) && d.frames != [] && c in d.frames[|d.frames| - 1].todo && c in d.num
    ensures var top := d.frames[|d.frames| - 1];
      Inv(adj, roots, Advance(d, c, if top.min > d.num[c] then d.num[c] else top.min))
  {
    hide Reach;
    var top := d.frames[|d.frames| - 1];
    assert FrameOk(adj, d, top);
    var m := if top.min > d.num[c] then d.num[c] else top.min;
    AdvanceFrames(adj, d, c, m);
    AdvanceBound(adj, d, c, m);
    assert Shape(adj, roots, Advance(d, c, m));
  }

  /** Descending into an unvisited child keeps the invariant. */
  lemma DescendKeeps(adj: Adj, roots: set<nat>, d: Dfs, c: nat)
    requires Inv(adj, roots, d) && d.frames != [] && c in d.frames[|d.frames| - 1].todo && c !in d.num
    ensures c < |adj| && Inv(adj, roots, Enter(adj, Advance(d, c, d.frames[|d.frames| - 1].min), c))
  {
    hide Reach;
    var t := |d.frames| - 1;
    var top := d.frames[t];
    assert FrameOk(adj, d, top);
    var e := Advance(d, c, top.min);
    AdvanceFrames(adj, d, c, top.min);
    AdvanceBound(adj, d, c, top.min);
    ReachEdge(adj, top.node, c);
    assert FromRoot(adj, roots, c) by {
      assert FromRoot(adj, roots, top.node);
      var r :| r in roots && Reach(adj, r, top.node);
      ReachTrans(adj, r, top.node, c);
    }
    forall k | 0 <= k < |e.frames|
      ensures Reach(adj, e.frames[k].node, c)
    {
      if k < t {
        ReachTrans(adj, d.frames[k].node, top.node, c);
      }
    }
    EnterKeeps(adj, roots, e, c);
  }

  /** Every open node visited before frame `m` lies in the segment of an earlier frame. */
  lemma {:induction false} FindSeg(adj: Adj, d: Dfs, m: nat, x: nat) returns (j: nat)
    requires Framed(adj, d) && m < |d.frames| && Open(d, x) && d.num[x] < d.num[d.frames[m].node]
    ensures j < m && Seg(d, j, x)
  {
    hide Reach;
    assert FrameOk(adj, d, d.frames[m]);
    assert m > 0;
    assert FrameOk(adj, d, d.frames[m - 1]);
    if d.num[d.frames[m - 1].node] <= d.num[x] {
      j := m - 1;
    } else {
      j := FindSeg(adj, d, m - 1, x);
    }
  }

  /** The finished top frame is not the first node of its component: fold it into its parent. */
  function Fold(d: Dfs): Dfs
    requires |d.frames| >= 2
  {
    var t := |d.frames| - 1;
    var p := d.frames[t - 1];
    d.(frames := d.frames[..t][t - 1 := Frame(p.node, p.todo, if p.min > d.frames[t].min then d.frames[t].min else p.min)])
  }

  lemma FoldReaches(adj: Adj, d: Dfs)
    requires d.frames != [] && Framed(adj, d) && Linked(adj, d) && LowReached(adj, d)
    requires var top := d.frames[|d.frames| - 1]; top.node in d.num && top.min != d.num[top.node]
    ensures |d.frames| >= 2 && Reach(adj, d.frames[|d.frames| - 1].node, d.frames[|d.frames| - 2].node)
  {
    hide Reach;
    var t := |d.frames| - 1;
    var top := d.frames[t];
    assert FrameOk(adj, d, top) && HasLow(adj, d, t);
    var x: nat :| LowWitness(adj, d, t, x);
    var j := FindSeg(adj, d, t, x);
    ReachTrans(adj, top.node, x, d.frames[j].node);
    if j < t - 1 {
      ReachTrans(adj, top.node, d.frames[j].node, d.frames[t - 1].node);
    }
  }

  lemma FoldSeg(adj: Adj, d: Dfs, k: int, w: nat)
    requires |d.frames| >= 2 && Framed(adj, d)
    ensures var t := |d.frames| - 1;
      Seg(Fold(d), k, w) <==> k < t && (Seg(d, k, w) || (k == t - 1 && Seg(d, t, w)))
  {
    var t, e := |d.frames| - 1, Fold(d);
    assert FrameOk(adj, d, d.frames[t]) && FrameOk(adj, d, d.frames[t - 1]);
    assert forall i :: 0 <= i < t ==> e.frames[i].node == d.frames[i].node;
  }

  lemma FoldLinked(adj: Adj, d: Dfs)
    requires |d.frames| >= 2 && Framed(adj, d) && Linked(adj, d)
    requires Reach(adj, d.frames[|d.frames| - 1].node, d.frames[|d.frames| - 2].node)
    ensures Linked(adj, Fold(d))
  {
    hide Reach;
    var t, e := |d.frames| - 1, Fold(d);
    var a, b := d.frames[t - 1].node, d.frames[t].node;
    forall k, w: nat | Seg(e, k, w)
      ensures Reach(adj, e.frames[k].node, w) && Reach(adj, w, e.frames[k].node)
    {
      FoldSeg(adj, d, k, w);
      if !Seg(d, k, w) {
        ReachTrans(adj, a, b, w);
        ReachTrans(adj, w, b, a);
      }
    }
  }

  lemma FoldFrames(adj: Adj, d: Dfs)
    requires |d.frames| >= 2 && Framed(adj, d) && LowReached(adj, d)
    ensures Framed(adj, Fold(d)) && LowReached(adj, Fold(d))
  {
    hide Reach;
    var t, e := |d.frames| - 1, Fold(d);
    var a, b := d.frames[t - 1].node, d.frames[t].node;
    forall k | 0 <= k < t
      ensures FrameOk(adj, e, e.frames[k]) && HasLow(adj, e, k)
    {
      assert FrameOk(adj, d, d.frames[k]) && HasLow(adj, d, k) && HasLow(adj, d, t);
      var x: nat :| LowWitness(adj, d, k, x);
      var y: nat :| LowWitness(adj, d, t, y);
      ReachTrans(adj, d.frames[k].node, b, y);
      assert LowWitness(adj, e, k, if e.frames[k].min == d.frames[k].min then x else y);
    }
  }

  lemma FoldBound(adj: Adj, d: Dfs)
    requires |d.frames| >= 2 && Framed(adj, d) && LowBound(adj, d) && d.frames[|d.frames| - 1].todo == {}
    ensures LowBound(adj, Fold(d))
  {
    hide Reach;
    var t, e := |d.frames| - 1, Fold(d);
    forall k, w: nat, y: nat | Seen(adj, e, k, w, y)
      ensures y in e.num && e.num[y] >= e.frames[k].min
    {
      FoldSeg(adj, d, k, w);
      assert Seen(adj, d, k, w, y) || Seen(adj, d, t, w, y);
    }
  }

  /** Popping a frame whose minimum points below it keeps the invariant. */
  lemma FoldKeeps(adj: Adj, roots: set<nat>, d: Dfs)
    requires Inv(adj, roots, d) && d.frames != [] && d.frames[|d.frames| - 1].todo == {}
    requires var top := d.frames[|d.frames| - 1]; top.node in d.num && top.min != d.num[top.node]
    ensures |d.frames| >= 2 && Inv(adj, roots, Fold(d))
  {
    hide Reach;
    FoldReaches(adj, d);
    FoldLinked(adj, d);
    FoldFrames(adj, d);
    FoldBound(adj, d);
  }

  /** The finished top frame is the first node of its component: the stack from position `p` on is emitted as `scc`. */
  function Emit(d: Dfs, p: nat, scc: seq<nat>): Dfs
    requires d.frames != [] && p <= |d.stack|
  {
    Dfs(map v | v in d.num :: if v in scc then DONE else d.num[v],
        d.stack[..p],
        d.frames[..|d.frames| - 1],
        d.out + [scc],
        map v | v in d.comp.Keys + (set w | w in scc) :: if v in scc then |d.out| else d.comp[v])
  }

  /** `scc` lists exactly the open nodes visited no earlier than the top of the path, which starts at position `p`. */
  ghost predicate TopSegment(d: Dfs, p: nat, scc: seq<nat>) {
    && d.frames != [] && p < |d.stack| && d.stack[p] == d.frames[|d.frames| - 1].node
    && Distinct(scc) && forall v :: v in scc <==> Seg(d, |d.frames| - 1, v)
  }

  lemma EmitListed(d: Dfs, p: nat, scc: seq<nat>)
    requires Listed(d.out, d.comp) && d.frames != [] && p <= |d.stack|
    requires scc != [] && Distinct(scc) && forall v :: v in scc ==> v !in d.comp
    ensures Listed(d.out + [scc], Emit(d, p, scc).comp)
  {
    var comp' := Emit(d, p, scc).comp;
    assert comp'.Keys == d.comp.Keys + set w | w in scc;
    forall i | 0 <= i < |d.out|
      ensures Members(d.out[i], i, comp')
    {
      assert Members(d.out[i], i, d.comp);
    }
    assert Members(scc, |d.out|, comp');
  }

  lemma EmitStrong(adj: Adj, d: Dfs, p: nat, scc: seq<nat>)
    requires Listed(d.out, d.comp) && StronglyConnected(adj, d.comp) && Linked(adj, d) && TopSegment(d, p, scc)
    ensures StronglyConnected(adj, Emit(d, p, scc).comp)
  {
    hide Reach;
    var t, comp' := |d.frames| - 1, Emit(d, p, scc).comp;
    forall v: nat, w: nat | v in comp' && w in comp' && comp'[v] == comp'[w]
      ensures Reach(adj, v, w)
    {
      if v in scc {
        assert Seg(d, t, v) && Seg(d, t, w);
        ReachTrans(adj, v, d.frames[t].node, w);
      }
    }
  }

  lemma EmitOrdered(adj: Adj, d: Dfs, p: nat, scc: seq<nat>)
    requires Listed(d.out, d.comp) && Ordered(adj, d.comp) && TopSegment(d, p, scc)
    requires Numbered(adj, d) && Framed(adj, d) && LowBound(adj, d)
    requires var top := d.frames[|d.frames| - 1]; top.todo == {} && top.node in d.num && top.min == d.num[top.node]
    ensures Ordered(adj, Emit(d, p, scc).comp)
  {
    hide Reach;
    var t, comp' := |d.frames| - 1, Emit(d, p, scc).comp;
    forall v: nat, y: nat | v in comp' && v < |adj| && y in adj[v]
      ensures y in comp' && comp'[y] <= comp'[v]
    {
      if v in scc {
        assert Seen(adj, d, t, v, y);
        assert y !in d.comp ==> Seg(d, t, y);
      } else {
        assert y in d.comp;
        assert y in scc ==> Seg(d, t, y);
      }
    }
  }

  lemma EmitNumbered(adj: Adj, d: Dfs, p: nat, scc: seq<nat>)
    requires |adj| < DONE && |d.num| <= |adj| && Numbered(adj, d) && TopSegment(d, p, scc)
    ensures var e := Emit(d, p, scc);
      e.num.Keys == d.num.Keys && |e.num| == |d.num| && Numbered(adj, e)
  {
    var e, t := Emit(d, p, scc), |d.frames| - 1;
    assert e.num.Keys == d.num.Keys;
    assert |e.num| == |e.num.Keys| && |d.num| == |d.num.Keys|;
    assert forall v :: v in scc ==> Seg(d, t, v);
  }

  lemma EmitStacks(adj: Adj, d: Dfs, p: nat, scc: seq<nat>)
    requires Numbered(adj, d) && Stacked(d) && Framed(adj, d) && TopSegment(d, p, scc)
    ensures Stacked(Emit(d, p, scc))
  {
    hide Reach, Numbered;
    var e, t := Emit(d, p, scc), |d.frames| - 1;
    assert FrameOk(adj, d, d.frames[t]);
    forall i | 0 <= i < |e.stack|
      ensures Open(e, e.stack[i]) && e.num[e.stack[i]] == d.num[d.stack[i]]
    {
      assert Open(d, d.stack[i]) && d.num[d.stack[i]] < d.num[d.stack[p]];
      assert !Seg(d, t, d.stack[i]);
    }
    forall v: nat | Open(e, v)
      ensures v in e.stack
    {
      assert Open(d, v) && !Seg(d, t, v);
      var i :| 0 <= i < |d.stack| && d.stack[i] == v;
      assert d.num[d.stack[i]] < d.num[d.stack[p]];
      assert e.stack[i] == v;
    }
  }

  lemma EmitSeg(adj: Adj, d: Dfs, p: nat, scc: seq<nat>, k: int, w: nat)
    requires Numbered(adj, d) && Framed(adj, d) && TopSegment(d, p, scc)
    ensures var e := Emit(d, p, scc);
      && (Seg(e, k, w) <==> k < |d.frames| - 1 && Seg(d, k, w))
      && (Seg(e, k, w) ==> e.num[w] == d.num[w])
  {
    var t := |d.frames| - 1;
    assert FrameOk(adj, d, d.frames[t]);
    assert 0 <= k < t ==> FrameOk(adj, d, d.frames[k]) && !Seg(d, t, d.frames[k].node);
    assert 0 <= k + 1 < t ==> FrameOk(adj, d, d.frames[k + 1]) && !Seg(d, t, d.frames[k + 1].node);
    assert Seg(d, t, w) ==> Emit(d, p, scc).num[w] == DONE;
  }

  lemma EmitFrames(adj: Adj, d: Dfs, p: nat, scc: seq<nat>)
    requires Numbered(adj, d) && Framed(adj, d) && LowReached(adj, d) && TopSegment(d, p, scc)
    ensures var e := Emit(d, p, scc); Framed(adj, e) && LowReached(adj, e)
  {
    hide Reach;
    var e, t := Emit(d, p, scc), |d.frames| - 1;
    assert FrameOk(adj, d, d.frames[t]);
    forall k | 0 <= k < t
      ensures FrameOk(adj, e, e.frames[k]) && HasLow(adj, e, k) && e.num[e.frames[k].node] == d.num[d.frames[k].node]
    {
      assert FrameOk(adj, d, d.frames[k]) && HasLow(adj, d, k) && !Seg(d, t, d.frames[k].node);
      var x: nat :| LowWitness(adj, d, k, x);
      assert !Seg(d, t, x);
      assert LowWitness(adj, e, k, x);
    }
    forall v: nat | Open(e, v)
      ensures |e.frames| > 0 && e.num[e.frames[0].node] <= e.num[v]
    {
      assert Open(d, v) && !Seg(d, t, v);
    }
  }

  lemma EmitLinked(adj: Adj, d: Dfs, p: nat, scc: seq<nat>)
    requires Numbered(adj, d) && Framed(adj, d) && Linked(adj, d) && TopSegment(d, p, scc)
    ensures Linked(adj, Emit(d, p, scc))
  {
    hide Reach;
    var e := Emit(d, p, scc);
    forall k, w: nat | Seg(e, k, w)
      ensures Reach(adj, e.frames[k].node, w) && Reach(adj, w, e.frames[k].node)
    {
      EmitSeg(adj, d, p, scc, k, w);
    }
  }

  lemma EmitBound(adj: Adj, d: Dfs, p: nat, scc: seq<nat>)
    requires Numbered(adj, d) && Framed(adj, d) && LowBound(adj, d) && TopSegment(d, p, scc) && |adj| < DONE
    requires |d.num| <= |adj|
    ensures LowBound(adj, Emit(d, p, scc))
  {
    hide Reach;
    var e := Emit(d, p, scc);
    forall k, w: nat, y: nat | Seen(adj, e, k, w, y)
      ensures y in e.num && e.num[y] >= e.frames[k].min
    {
      EmitSeg(adj, d, p, scc, k, w);
      assert Seen(adj, d, k, w, y) && FrameOk(adj, d, d.frames[k]);
    }
  }

  /** Emitting the component on top of the stack keeps the invariant. */
  lemma EmitKeeps(adj: Adj, roots: set<nat>, d: Dfs, p: nat, scc: seq<nat>)
    requires Inv(adj, roots, d) && TopSegment(d, p, scc)
    requires var top := d.frames[|d.frames| - 1]; top.todo == {} && top.node in d.num && top.min == d.num[top.node]
    ensures Inv(adj, roots, Emit(d, p, scc))
  {
    hide Reach;
    assert Seg(d, |d.frames| - 1, d.frames[|d.frames| - 1].node) by {
      assert FrameOk(adj, d, d.frames[|d.frames| - 1]);
    }
    assert forall v :: v in scc ==> Seg(d, |d.frames| - 1, v);
    assert d.frames[|d.frames| - 1].node in scc;
    EmitListed(d, p, scc);
    EmitStrong(adj, d, p, scc);
    EmitOrdered(adj, d, p, scc);
    EmitNumbered(adj, d, p, scc);
    EmitStacks(adj, d, p, scc);
    EmitFrames(adj, d, p, scc);
    EmitLinked(adj, d, p, scc);
    EmitBound(adj, d, p, scc);
  }

  /** The stack from the position of the top frame's node on is its segment, in either direction. */
  lemma TopSegmentIsSuffix(adj: Adj, roots: set<nat>, d: Dfs, p: nat, scc: seq<nat>)
    requires Inv(adj, roots, d)
    requires d.frames != [] && p < |d.stack| && d.stack[p] == d.frames[|d.frames| - 1].node
    requires |scc| == |d.stack| - p && forall i :: 0 <= i < |scc| ==> scc[i] == d.stack[|d.stack| - 1 - i]
    ensures TopSegment(d, p, scc)
  {
    hide Reach;
    var t, n := |d.frames| - 1, |d.stack|;
    forall i, j | 0 <= i < j < |scc|
      ensures scc[i] != scc[j]
    {
      assert d.num[d.stack[n - 1 - j]] < d.num[d.stack[n - 1 - i]];
    }
    forall v: nat | Seg(d, t, v)
      ensures v in scc
    {
      var i :| 0 <= i < n && d.stack[i] == v;
      assert d.num[d.stack[p]] <= d.num[d.stack[i]];
      assert scc[n - 1 - i] == v;
    }
    forall v: nat | v in scc
      ensures Seg(d, t, v)
    {
      var i :| 0 <= i < |scc| && scc[i] == v;
      assert n - 1 - i > p ==> d.num[d.stack[p]] < d.num[d.stack[n - 1 - i]];
    }
  }

  /** The node of the top frame is on the stack, and its parent's minimum is below its visit number. */
  lemma TopOnStack(adj: Adj, roots: set<nat>, d: Dfs) returns (p: nat)
    requires Inv(adj, roots, d) && d.frames != []
    ensures p < |d.stack| && d.stack[p] == d.frames[|d.frames| - 1].node
    ensures |d.frames| >= 2 ==> var t := |d.frames| - 1; d.frames[t].node in d.num && d.frames[t - 1].min < d.num[d.frames[t].node]
  {
    hide Reach;
    var t := |d.frames| - 1;
    assert FrameOk(adj, d, d.frames[t]);
    assert t > 0 ==> FrameOk(adj, d, d.frames[t - 1]);
    p :| 0 <= p < |d.stack| && d.stack[p] == d.frames[t].node;
  }

  /** Every emitted component is a maximal strongly connected set of nodes. */
  lemma EmittedMaximal(adj: Adj, out: seq<seq<nat>>, comp: map<nat, nat>, v: nat, w: nat)
    requires Emitted(adj, out, comp) && v in comp
    ensures Reach(adj, v, w) && Reach(adj, w, v) <==> w in comp && comp[w] == comp[v]
  {
    if Reach(adj, v, w) && Reach(adj, w, v) {
      ReachStays(adj, (set x | x in comp && comp[x] <= comp[v]), v, w);
      ReachStays(adj, (set x | x in comp && comp[x] <= comp[w]), w, v);
    }
  }
}
