/** What a list of requests asks for, read off the list: nodes, objects, constraints, and the answer to them. */
module Requests {
  import opened ConstraintSystems

  function ObjectCount(ops: seq<Op>): nat {
    multiset(ops)[NewObject]
  }

  /** How many nodes the requests add: one for a pointer, two for an object. */
  function NodeCount(ops: seq<Op>): nat {
    multiset(ops)[NewPointer] + 2 * ObjectCount(ops)
  }

  /** An object that is requested gets the next object number, and the next node. */
  ghost predicate ObjectsAsked(sys: System, ops: seq<Op>, objVec: seq<nat>) {
    && sys.objVec <= objVec && |objVec| == |sys.objVec| + ObjectCount(ops)
    && forall i :: 0 <= i < |ops| && ops[i] == NewObject ==> Numbered(sys, ops[..i], objVec)
  }

  /** The object requested after `before` has its number and its node. */
  ghost predicate Numbered(sys: System, before: seq<Op>, objVec: seq<nat>) {
    var o := |sys.objVec| + ObjectCount(before);
    o < |objVec| && objVec[o] == sys.n + NodeCount(before)
  }

  /** A constraint of the system or of the requests. */
  ghost predicate IsAsked(sys: System, ops: seq<Op>, e: Edge) {
    e in sys.cons || NewConstraint(e) in ops
  }

  lemma CountAppend(ops: seq<Op>, op: Op)
    ensures ObjectCount(ops + [op]) == ObjectCount(ops) + if op == NewObject then 1 else 0
    ensures NodeCount(ops + [op]) == NodeCount(ops) + if op == NewPointer then 1 else if op == NewObject then 2 else 0
  {
    assert multiset(ops + [op]) == multiset(ops) + multiset{op};
  }

  lemma {:induction false} ApplyAllCons(sys: System, ops: seq<Op>)
    ensures forall e :: e in ApplyAll(sys, ops).cons <==> IsAsked(sys, ops, e)
    decreases |ops|
  {
    if ops != [] {
      var most, op := ops[..|ops| - 1], ops[|ops| - 1];
      ApplyAllCons(sys, most);
      assert ops == most + [op];
      forall e
        ensures IsAsked(sys, ops, e) <==> IsAsked(sys, most, e) || op == NewConstraint(e)
      {
      }
      hide IsAsked;
    }
  }

  lemma ApplyLast(sys: System, most: seq<Op>, op: Op)
    ensures ApplyAll(sys, most + [op]) == Apply(ApplyAll(sys, most), op)
  {
    assert (most + [op])[..|most + [op]| - 1] == most;
  }

  lemma NothingAsked(sys: System)
    ensures ApplyAll(sys, []) == sys && NodeCount([]) == 0 && ObjectsAsked(sys, [], sys.objVec)
  {
  }

  lemma {:induction false} ApplyAllNodes(sys: System, ops: seq<Op>)
    ensures ApplyAll(sys, ops).n == sys.n + NodeCount(ops) && ObjectsAsked(sys, ops, ApplyAll(sys, ops).objVec)
    decreases |ops|
  {
    hide NodeCount, ObjectCount, ObjectsAsked, ApplyAll;
    if ops == [] {
      NothingAsked(sys);
    } else {
      var most, op := ops[..|ops| - 1], ops[|ops| - 1];
      assert ops == most + [op];
      ApplyAllNodes(sys, most);
      ApplyLast(sys, most, op);
      CountAppend(most, op);
      AskedAppend(sys, most, op, ApplyAll(sys, most).objVec);
    }
  }

  /** The system after a list of requests has exactly what the list asks for. */
  lemma ApplyAllAsked(sys: System, ops: seq<Op>)
    ensures ApplyAll(sys, ops).n == sys.n + NodeCount(ops) && ObjectsAsked(sys, ops, ApplyAll(sys, ops).objVec)
    ensures forall e :: e in ApplyAll(sys, ops).cons <==> IsAsked(sys, ops, e)
  {
    ApplyAllNodes(sys, ops);
    ApplyAllCons(sys, ops);
  }

  lemma AskedAppend(sys: System, ops: seq<Op>, op: Op, objVec: seq<nat>)
    requires ObjectsAsked(sys, ops, objVec)
    ensures ObjectsAsked(sys, ops + [op], if op == NewObject then objVec + [sys.n + NodeCount(ops)] else objVec)
  {
    CountAppend(ops, op);
    hide NodeCount, ObjectCount;
    var all, objVec2 := ops + [op], if op == NewObject then objVec + [sys.n + NodeCount(ops)] else objVec;
    forall i | 0 <= i < |all| && all[i] == NewObject
      ensures Numbered(sys, all[..i], objVec2)
    {
      if i < |ops| {
        assert all[..i] == ops[..i];
        assert Numbered(sys, ops[..i], objVec);
      } else {
        assert all[..i] == ops;
      }
    }
  }

  lemma {:induction false} ApplyAllAppend(sys: System, a: seq<Op>, b: seq<Op>)
    ensures ApplyAll(ApplyAll(sys, a), b) == ApplyAll(sys, a + b)
    decreases |b|
  {
    if b == [] {
      assert a + b == a;
    } else {
      ApplyAllAppend(sys, a, b[..|b| - 1]);
      assert (a + b)[..|a + b| - 1] == a + b[..|b| - 1];
    }
  }

  /** `q` gives every address node its object and satisfies all constraints. */
  ghost predicate Meets(sys: System, ops: seq<Op>, objVec: seq<nat>, q: seq<set<nat>>) {
    && |q| >= sys.n + NodeCount(ops)
    && (forall o :: 0 <= o < |objVec| ==> objVec[o] + 1 < |q| && o in q[objVec[o] + 1])
    && (forall e :: IsAsked(sys, ops, e) ==> e.src < |q| && e.dst < |q| && Holds(objVec, q, e))
  }

  /** `q` is what the requests ask for: it meets them, and it lies below everything that does. */
  ghost predicate IsAnswer(sys: System, ops: seq<Op>, objVec: seq<nat>, q: seq<set<nat>>) {
    && ObjectsAsked(sys, ops, objVec) && |q| == sys.n + NodeCount(ops) && Meets(sys, ops, objVec, q)
    && forall r :: Meets(sys, ops, objVec, r) ==> Below(q, r)
  }

  /** The least solution of the system after the requests is the answer to them. */
  lemma LeastIsAnswer(sys: System, ops: seq<Op>, q: seq<set<nat>>)
    requires IsLeast(ApplyAll(sys, ops), q)
    ensures IsAnswer(sys, ops, ApplyAll(sys, ops).objVec, q)
  {
    ApplyAllAsked(sys, ops);
    var sys2 := ApplyAll(sys, ops);
    hide NodeCount, ObjectsAsked, IsAsked, ApplyAll;
    MeetsSolution(sys, ops, sys2, q);
    forall r | Meets(sys, ops, sys2.objVec, r)
      ensures Below(q, r)
    {
      MeetsSolution(sys, ops, sys2, r);
    }
  }

  lemma MeetsSolution(sys: System, ops: seq<Op>, sys2: System, q: seq<set<nat>>)
    requires WellFormed(sys2) && sys2.n == sys.n + NodeCount(ops) && forall e :: e in sys2.cons <==> IsAsked(sys, ops, e)
    ensures IsSolution(sys2, q) <==> Meets(sys, ops, sys2.objVec, q)
  {
    hide NodeCount, IsAsked, Holds;
  }

  /** All requests of several batches. */
  function Concat(batches: seq<seq<Op>>): seq<Op>
    decreases |batches|
  {
    if batches == [] then [] else Concat(batches[..|batches| - 1]) + batches[|batches| - 1]
  }
}
