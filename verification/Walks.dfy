/** Walks along a finite set of directed edges between events. */
module Walks {
  import opened Traces

  datatype Arc = Arc(src: Pid, dst: Pid)

  /** `p` lists the nodes visited after `a` on a walk along `E` that ends in `b`. */
  ghost predicate IsWalk(E: set<Arc>, a: Pid, p: seq<Pid>, b: Pid)
    decreases |p|
  {
    if p == [] then a == b else Arc(a, p[0]) in E && IsWalk(E, p[0], p[1..], b)
  }

  ghost predicate Leads(E: set<Arc>, a: Pid, b: Pid) {
    exists p :: IsWalk(E, a, p, b)
  }

  lemma LeadsRefl(E: set<Arc>, a: Pid)
    ensures Leads(E, a, a)
  {
    assert IsWalk(E, a, [], a);
  }

  lemma LeadsEdge(E: set<Arc>, a: Pid, b: Pid)
    requires Arc(a, b) in E
    ensures Leads(E, a, b)
  {
    assert IsWalk(E, b, [b][1..], b);
    assert IsWalk(E, a, [b], b);
  }

  lemma {:induction false} WalkConcat(E: set<Arc>, a: Pid, p: seq<Pid>, b: Pid, q: seq<Pid>, c: Pid)
    requires IsWalk(E, a, p, b) && IsWalk(E, b, q, c)
    ensures IsWalk(E, a, p + q, c)
    decreases |p|
  {
    if p == [] {
      assert p + q == q;
    } else {
      WalkConcat(E, p[0], p[1..], b, q, c);
      assert (p + q)[1..] == p[1..] + q;
    }
  }

  lemma LeadsTrans(E: set<Arc>, a: Pid, b: Pid, c: Pid)
    requires Leads(E, a, b) && Leads(E, b, c)
    ensures Leads(E, a, c)
  {
    var p :| IsWalk(E, a, p, b);
    var q :| IsWalk(E, b, q, c);
    WalkConcat(E, a, p, b, q, c);
  }

  /** A set that no edge leaves contains everything it leads to. */
  lemma LeadsStays(E: set<Arc>, X: set<Pid>, a: Pid, b: Pid)
    requires forall e :: e in E && e.src in X ==> e.dst in X
    requires a in X && Leads(E, a, b)
    ensures b in X
  {
    var p :| IsWalk(E, a, p, b);
    WalkStays(E, X, a, p, b);
  }

  lemma {:induction false} WalkStays(E: set<Arc>, X: set<Pid>, a: Pid, p: seq<Pid>, b: Pid)
    requires forall e :: e in E && e.src in X ==> e.dst in X
    requires a in X && IsWalk(E, a, p, b)
    ensures b in X
    decreases |p|
  {
    if p != [] {
      WalkStays(E, X, p[0], p[1..], b);
    }
  }
}
