/** Reachability in a finite directed graph whose nodes are numbered from zero. */
module Reachability {

  /** `adj[v]` is the set of children of node `v`. */
  type Adj = seq<set<nat>>

  ghost predicate IsGraph(adj: Adj) {
    forall v, w :: 0 <= v < |adj| && w in adj[v] ==> w < |adj|
  }

  /** `p` lists the nodes visited after `a` on a walk that ends in `b`. */
  ghost predicate IsPath(adj: Adj, a: nat, p: seq<nat>, b: nat)
    decreases |p|
  {
    if p == [] then a == b
    else a < |adj| && p[0] in adj[a] && IsPath(adj, p[0], p[1..], b)
  }

  ghost predicate Reach(adj: Adj, a: nat, b: nat) {
    exists p :: IsPath(adj, a, p, b)
  }

  lemma ReachRefl(adj: Adj, a: nat)
    ensures Reach(adj, a, a)
  {
    assert IsPath(adj, a, [], a);
  }

  lemma ReachEdge(adj: Adj, a: nat, b: nat)
    requires a < |adj| && b in adj[a]
    ensures Reach(adj, a, b)
  {
    assert IsPath(adj, b, [b][1..], b);
    assert IsPath(adj, a, [b], b);
  }

  lemma {:induction false} PathConcat(adj: Adj, a: nat, p: seq<nat>, b: nat, q: seq<nat>, c: nat)
    requires IsPath(adj, a, p, b) && IsPath(adj, b, q, c)
    ensures IsPath(adj, a, p + q, c)
    decreases |p|
  {
    if p == [] {
      assert p + q == q;
    } else {
      PathConcat(adj, p[0], p[1..], b, q, c);
      assert (p + q)[1..] == p[1..] + q;
    }
  }

  lemma ReachTrans(adj: Adj, a: nat, b: nat, c: nat)
    requires Reach(adj, a, b) && Reach(adj, b, c)
    ensures Reach(adj, a, c)
  {
    var p :| IsPath(adj, a, p, b);
    var q :| IsPath(adj, b, q, c);
    PathConcat(adj, a, p, b, q, c);
  }

  /** A set that no edge leaves contains everything reachable from it. */
  lemma ReachStays(adj: Adj, X: set<nat>, a: nat, b: nat)
    requires forall v, w :: v in X && v < |adj| && w in adj[v] ==> w in X
    requires a in X && Reach(adj, a, b)
    ensures b in X
  {
    var p :| IsPath(adj, a, p, b);
    PathStays(adj, X, a, p, b);
  }

  lemma {:induction false} PathStays(adj: Adj, X: set<nat>, a: nat, p: seq<nat>, b: nat)
    requires forall v, w :: v in X && v < |adj| && w in adj[v] ==> w in X
    requires a in X && IsPath(adj, a, p, b)
    ensures b in X
    decreases |p|
  {
    if p != [] {
      PathStays(adj, X, p[0], p[1..], b);
    }
  }
}
