/**
 * Inclusion constraints between pointer nodes and what it means to solve them: the specification
 * that both solvers are proved against.
 */
module ConstraintSystems {

  /** The constraint kinds of `enum class Constraints` that the model covers. */
  datatype Kind = Load | Store | Copy | AddrOf

  datatype Edge = Edge(kind: Kind, src: nat, dst: nat)

  /**
   * `n` nodes; `objVec[o]` is the node of object `o`, and the node right after it is the anonymous
   * node that holds the address of `o`. `cons` are the constraints as they were added.
   */
  datatype System = System(n: nat, objVec: seq<nat>, cons: set<Edge>)

  ghost predicate IsAnon(objVec: seq<nat>, v: nat) {
    exists o :: 0 <= o < |objVec| && objVec[o] + 1 == v
  }

  ghost predicate IsObject(objVec: seq<nat>, v: nat) {
    exists o :: 0 <= o < |objVec| && objVec[o] == v
  }

  /** Objects come with their anonymous node, and no two of them overlap. */
  ghost predicate ObjectsOk(n: nat, objVec: seq<nat>) {
    && (forall o :: 0 <= o < |objVec| ==> objVec[o] + 1 < n)
    && (forall o, p :: 0 <= o < p < |objVec| ==> objVec[o] + 1 < objVec[p])
  }

  /** What the callers of `addConstraints` owe: known nodes, and no edge into an anonymous node. */
  ghost predicate EdgeOk(n: nat, objVec: seq<nat>, e: Edge) {
    e.src < n && e.dst < n && !IsAnon(objVec, e.dst) && (e.kind == AddrOf ==> IsObject(objVec, e.src))
  }

  ghost predicate WellFormed(sys: System) {
    && ObjectsOk(sys.n, sys.objVec)
    && forall e :: e in sys.cons ==> EdgeOk(sys.n, sys.objVec, e)
  }

  /** The textbook reading of one constraint in the assignment `q` of points-to sets. */
  ghost predicate Holds(objVec: seq<nat>, q: seq<set<nat>>, e: Edge)
    requires e.src < |q| && e.dst < |q| && forall o :: 0 <= o < |objVec| ==> objVec[o] < |q|
  {
    match e.kind
    case AddrOf => forall o :: 0 <= o < |objVec| && objVec[o] == e.src ==> o in q[e.dst]
    case Copy => q[e.src] <= q[e.dst]
    case Load => forall o :: o in q[e.src] && o < |objVec| ==> q[objVec[o]] <= q[e.dst]
    case Store => forall o :: o in q[e.dst] && o < |objVec| ==> q[e.src] <= q[objVec[o]]
  }

  /** `q` satisfies every constraint, and every anonymous node points to its object. */
  ghost predicate IsSolution(sys: System, q: seq<set<nat>>) {
    && WellFormed(sys) && |q| >= sys.n
    && (forall o :: 0 <= o < |sys.objVec| ==> o in q[sys.objVec[o] + 1])
    && (forall e :: e in sys.cons ==> Holds(sys.objVec, q, e))
  }

  /** `q` is the least solution: it is one, and it lies below every other. */
  ghost predicate IsLeast(sys: System, q: seq<set<nat>>) {
    && |q| == sys.n && IsSolution(sys, q)
    && forall r :: IsSolution(sys, r) ==> Below(q, r)
  }

  ghost predicate Below(q: seq<set<nat>>, r: seq<set<nat>>) {
    |q| <= |r| && forall v :: 0 <= v < |q| ==> q[v] <= r[v]
  }

  /** A system has at most one least solution. */
  lemma LeastUnique(sys: System, q: seq<set<nat>>, r: seq<set<nat>>)
    requires IsLeast(sys, q) && IsLeast(sys, r)
    ensures q == r
  {
    hide IsSolution;
    assert Below(q, r) && Below(r, q);
    forall v | 0 <= v < |q|
      ensures q[v] == r[v]
    {
      assert q[v] <= r[v] && r[v] <= q[v];
    }
  }

  /**
   * The reading the constraint graph works with: an address-of constraint is a copy from the
   * anonymous node, and anonymous nodes point to nothing else.
   */
  ghost predicate Fits(sys: System, q: seq<set<nat>>) {
    && IsSolution(sys, q)
    && forall o :: 0 <= o < |sys.objVec| ==> q[sys.objVec[o] + 1] == {o}
  }

  /** `q` with every anonymous node cut down to the object whose address it takes. */
  ghost function Trim(objVec: seq<nat>, q: seq<set<nat>>): (r: seq<set<nat>>)
    requires forall o :: 0 <= o < |objVec| ==> objVec[o] + 1 < |q|
    ensures |r| == |q|
  {
    seq(|q|, v requires 0 <= v < |q| =>
      if IsAnon(objVec, v) then q[v] * (set o | 0 <= o < |objVec| && objVec[o] + 1 == v) else q[v])
  }

  /** Below every solution there is one that fits, so a least fitting assignment is the least solution. */
  lemma TrimFits(sys: System, q: seq<set<nat>>)
    requires IsSolution(sys, q)
    ensures Fits(sys, Trim(sys.objVec, q)) && Below(Trim(sys.objVec, q), q)
  {
    var r := Trim(sys.objVec, q);
    forall o | 0 <= o < |sys.objVec|
      ensures r[sys.objVec[o] + 1] == {o} && r[sys.objVec[o]] == q[sys.objVec[o]]
    {
      assert IsAnon(sys.objVec, sys.objVec[o] + 1);
      assert forall p :: 0 <= p < |sys.objVec| && p != o ==> sys.objVec[p] != sys.objVec[o];
      assert !IsAnon(sys.objVec, sys.objVec[o]);
    }
    forall e | e in sys.cons
      ensures Holds(sys.objVec, r, e)
    {
      assert Holds(sys.objVec, q, e) && EdgeOk(sys.n, sys.objVec, e);
      assert r[e.dst] == q[e.dst] && r[e.src] <= q[e.src];
    }
  }

  /** A larger system has fewer solutions. */
  lemma SolutionShrinks(sys: System, sys': System, q: seq<set<nat>>)
    requires sys.n <= sys'.n && sys.objVec <= sys'.objVec && sys.cons <= sys'.cons
    requires WellFormed(sys) && IsSolution(sys', q)
    ensures IsSolution(sys, q)
  {
    forall e | e in sys.cons
      ensures Holds(sys.objVec, q, e)
    {
      assert Holds(sys'.objVec, q, e);
      assert forall o :: 0 <= o < |sys.objVec| ==> sys.objVec[o] == sys'.objVec[o];
    }
  }

  /** What a language model asks of the constraint graph: a pointer node, an object with its address node, a constraint. */
  datatype Op = NewPointer | NewObject | NewConstraint(edge: Edge)

  /** The system after one request. */
  function Apply(sys: System, op: Op): System {
    match op
    case NewPointer => System(sys.n + 1, sys.objVec, sys.cons)
    case NewObject => System(sys.n + 2, sys.objVec + [sys.n], sys.cons)
    case NewConstraint(e) => System(sys.n, sys.objVec, sys.cons + {e})
  }

  function ApplyAll(sys: System, ops: seq<Op>): System
    decreases |ops|
  {
    if ops == [] then sys else Apply(ApplyAll(sys, ops[..|ops| - 1]), ops[|ops| - 1])
  }

  /** Every constraint is between nodes that exist when it is added. */
  ghost predicate OpsOk(sys: System, ops: seq<Op>) {
    forall i :: 0 <= i < |ops| && ops[i].NewConstraint? ==>
      var at := ApplyAll(sys, ops[..i]); EdgeOk(at.n, at.objVec, ops[i].edge)
  }
}
