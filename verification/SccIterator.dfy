/**
 * The iterative Tarjan iterator over a constraint graph
 * (src/PointerAnalysis/Graph/ConstraintGraph/SCCIterator.h).
 */
module SccIterators {
  import opened Reachability
  import opened Tarjan

  /** `BitVector::find_next_unset`: the first unset position after `last`, or -1. */
  method FindNextUnset(bits: seq<bool>, last: int) returns (r: int)
    requires -1 <= last
    ensures r == -1 || last < r < |bits|
    ensures r == -1 ==> forall i :: last < i < |bits| ==> bits[i]
    ensures r != -1 ==> !bits[r] && forall i :: last < i < r ==> bits[i]
  {
    var i := last + 1;
    while i < |bits|
      invariant last < i
      invariant forall j :: last < j < i && j < |bits| ==> bits[j]
    {
      if !bits[i] {
        return i;
      }
      i := i + 1;
    }
    return -1;
  }

  /** The nodes a traversal starts from: the first unset node, and every later unset node without a super node. */
  ghost function Roots(workList: seq<bool>, collapsed: seq<bool>): set<nat> {
    set v | 0 <= v < |workList| && !workList[v]
      && (v < |collapsed| && collapsed[v] ==> forall u :: 0 <= u < v ==> workList[u])
  }

  class SccIterator {
    /** The children the traversal follows, and which nodes have a super node. */
    const adj: Adj
    const collapsed: seq<bool>
    ghost const workList: seq<bool>

    var visitNum: nat
    var nodeVisitNumbers: map<nat, nat>
    var sccNodeStack: seq<nat>
    var currentScc: seq<nat>
    var visitedNode: seq<bool>
    var lastRoot: nat
    var visitStack: seq<Frame>
    /** The components handed out so far, and the position of each of their nodes. */
    ghost var emitted: seq<seq<nat>>
    ghost var component: map<nat, nat>

    ghost function View(): Dfs
      reads this
    {
      Dfs(nodeVisitNumbers, sccNodeStack, visitStack, emitted, component)
    }

    ghost predicate Valid()
      reads this
    {
      && |collapsed| == |workList| == |visitedNode| == |adj|
      && Inv(adj, Roots(workList, collapsed), View())
      && visitNum == |nodeVisitNumbers|
      && (forall v :: 0 <= v < |adj| ==> (visitedNode[v] <==> workList[v] || v in nodeVisitNumbers))
    }

    /** Every node up to `lastRoot` needs no further visit, and neither does a collapsed first root. */
    ghost predicate Started()
      requires Valid()
      reads this
    {
      && (forall v :: 0 <= v <= lastRoot && v < |adj| ==> visitedNode[v] || collapsed[v])
      && (forall v :: v in Roots(workList, collapsed) && collapsed[v] ==> v in nodeVisitNumbers)
    }

    /** `DFSVisitOne`. */
    method DfsVisitOne(n: nat)
      requires n < |adj| && |visitedNode| == |adj| && visitNum == |nodeVisitNumbers| && n !in nodeVisitNumbers
      modifies `visitNum, `nodeVisitNumbers, `sccNodeStack, `visitStack, `visitedNode
      ensures View() == Enter(adj, old(View()), n)
      ensures visitedNode == old(visitedNode)[n := true]
      ensures visitNum == |nodeVisitNumbers|
    {
      visitNum := visitNum + 1;
      nodeVisitNumbers := nodeVisitNumbers[n := visitNum];
      sccNodeStack := sccNodeStack + [n];
      visitStack := visitStack + [Frame(n, adj[n], visitNum)];
      visitedNode := visitedNode[n := true];
      assert nodeVisitNumbers.Keys == old(nodeVisitNumbers).Keys + {n};
    }

    /** `DFSVisitChildren`: walk down until the top of the visit stack has no child left. */
    method DfsVisitChildren()
      requires Valid() && visitStack != []
      modifies `visitNum, `nodeVisitNumbers, `sccNodeStack, `visitStack, `visitedNode
      ensures Valid() && visitStack != [] && visitStack[|visitStack| - 1].todo == {}
      ensures |nodeVisitNumbers| >= old(|nodeVisitNumbers|)
      ensures |nodeVisitNumbers| == old(|nodeVisitNumbers|) ==> |visitStack| == old(|visitStack|)
      ensures old(nodeVisitNumbers.Keys) <= nodeVisitNumbers.Keys
    {
      hide Inv;
      while visitStack[|visitStack| - 1].todo != {}
        invariant Valid() && visitStack != []
        invariant |nodeVisitNumbers| >= old(|nodeVisitNumbers|)
        invariant |nodeVisitNumbers| == old(|nodeVisitNumbers|) ==> |visitStack| == old(|visitStack|)
        invariant old(nodeVisitNumbers.Keys) <= nodeVisitNumbers.Keys
        decreases |adj| - |nodeVisitNumbers|, visitStack[|visitStack| - 1].todo
      {
        var t := |visitStack| - 1;
        var child :| child in visitStack[t].todo;
        ghost var d := View();
        InvBasics(adj, Roots(workList, collapsed), d);
        visitStack := visitStack[t := visitStack[t].(todo := visitStack[t].todo - {child})];
        if child !in nodeVisitNumbers {
          DescendKeeps(adj, Roots(workList, collapsed), d, child);
          DfsVisitOne(child);
          assert View() == Enter(adj, Advance(d, child, d.frames[t].min), child);
        } else {
          SkipKeeps(adj, Roots(workList, collapsed), d, child);
          var childNum := nodeVisitNumbers[child];
          if visitStack[t].min > childNum {
            visitStack := visitStack[t := visitStack[t].(min := childNum)];
          }
          assert View() == Advance(d, child, if d.frames[t].min > childNum then childNum else d.frames[t].min);
        }
      }
    }

    /** The do/while at the end of `GetNextSCC`: move the stack down to `visiting` into the current component. */
    method PopScc(visiting: nat, ghost p: nat)
      requires p < |sccNodeStack| && sccNodeStack[p] == visiting && Distinct(sccNodeStack) && currentScc == []
      requires forall v :: v in sccNodeStack ==> v in nodeVisitNumbers
      modifies `currentScc, `sccNodeStack, `nodeVisitNumbers
      ensures |currentScc| == old(|sccNodeStack|) - p
      ensures forall i :: 0 <= i < |currentScc| ==> currentScc[i] == old(sccNodeStack)[old(|sccNodeStack|) - 1 - i]
      ensures sccNodeStack == old(sccNodeStack)[..p]
      ensures nodeVisitNumbers == map v | v in old(nodeVisitNumbers) ::
                if v in currentScc then DONE else old(nodeVisitNumbers)[v]
    {
      ghost var n := |sccNodeStack|;
      var more := true;
      while more
        invariant more ==> |currentScc| < n - p
        invariant !more ==> |currentScc| == n - p
        invariant sccNodeStack == old(sccNodeStack)[..n - |currentScc|]
        invariant forall i :: 0 <= i < |currentScc| ==> currentScc[i] == old(sccNodeStack)[n - 1 - i]
        invariant nodeVisitNumbers == map v | v in old(nodeVisitNumbers) ::
                    if v in currentScc then DONE else old(nodeVisitNumbers)[v]
        decreases n - |currentScc|, more
      {
        var top := sccNodeStack[|sccNodeStack| - 1];
        assert top == old(sccNodeStack)[n - 1 - |currentScc|];
        currentScc := currentScc + [top];
        sccNodeStack := sccNodeStack[..|sccNodeStack| - 1];
        nodeVisitNumbers := nodeVisitNumbers[top := DONE];
        more := top != visiting;
      }
    }

    /** The component whose first node `visiting` has just left the visit stack is emitted. */
    method CompleteScc(visiting: nat, ghost d: Dfs)
      requires Inv(adj, Roots(workList, collapsed), d) && d.frames != [] && currentScc == []
      requires var t := |d.frames| - 1;
        && d.frames[t].node == visiting && d.frames[t].todo == {}
        && visiting in d.num && d.frames[t].min == d.num[visiting]
        && View() == d.(frames := d.frames[..t])
      modifies `nodeVisitNumbers, `sccNodeStack, `currentScc, `emitted, `component
      ensures Inv(adj, Roots(workList, collapsed), View())
      ensures nodeVisitNumbers.Keys == old(nodeVisitNumbers.Keys)
      ensures currentScc != [] && emitted == old(emitted) + [currentScc]
      ensures old(component.Keys) < component.Keys
    {
      hide Inv;
      ghost var roots := Roots(workList, collapsed);
      InvBasics(adj, roots, d);
      ghost var p := TopOnStack(adj, roots, d);
      PopScc(visiting, p);
      TopSegmentIsSuffix(adj, roots, d, p, currentScc);
      EmitKeeps(adj, roots, d, p, currentScc);
      emitted := emitted + [currentScc];
      component := Emit(d, p, currentScc).comp;
      assert forall v :: v in currentScc ==> Seg(d, |d.frames| - 1, v);
      assert currentScc[0] in component && currentScc[0] !in d.comp;
      assert View() == Emit(d, p, currentScc);
    }

    /** Pop the finished frame on top of the visit stack and hand its minimum to its parent. */
    method PopFrame() returns (visiting: nat, minVisitNum: nat)
      requires Inv(adj, Roots(workList, collapsed), View())
      requires visitStack != [] && visitStack[|visitStack| - 1].todo == {}
      modifies `visitStack
      ensures visiting in nodeVisitNumbers && |visitStack| == old(|visitStack|) - 1
      ensures old(visitStack)[|visitStack|].node == visiting && old(visitStack)[|visitStack|].min == minVisitNum
      ensures minVisitNum != nodeVisitNumbers[visiting] ==> visitStack != [] && Inv(adj, Roots(workList, collapsed), View())
      ensures minVisitNum == nodeVisitNumbers[visiting] ==> visitStack == old(visitStack)[..|visitStack|]
    {
      hide Inv;
      ghost var roots := Roots(workList, collapsed);
      ghost var d := View();
      InvBasics(adj, roots, d);
      ghost var _ := TopOnStack(adj, roots, d);
      var t := |visitStack| - 1;
      visiting, minVisitNum := visitStack[t].node, visitStack[t].min;
      visitStack := visitStack[..t];
      if visitStack != [] && visitStack[t - 1].min > minVisitNum {
        visitStack := visitStack[t - 1 := visitStack[t - 1].(min := minVisitNum)];
      }
      if minVisitNum != nodeVisitNumbers[visiting] {
        FoldKeeps(adj, roots, d);
        assert View() == Fold(d);
      }
    }

    /** `GetNextSCC`: resume the traversal until the next component is complete. */
    method GetNextScc()
      requires Valid()
      modifies `visitNum, `nodeVisitNumbers, `sccNodeStack, `visitStack, `visitedNode, `currentScc, `emitted, `component
      ensures Valid()
      ensures old(nodeVisitNumbers.Keys) <= nodeVisitNumbers.Keys
      ensures old(visitStack) == [] ==> currentScc == [] && View() == old(View())
      ensures old(visitStack) != [] ==> currentScc != [] && emitted == old(emitted) + [currentScc]
      ensures old(visitStack) != [] ==> old(component.Keys) < component.Keys
    {
      hide Inv, Roots;
      currentScc := [];
      while visitStack != []
        invariant Valid() && currentScc == [] && emitted == old(emitted) && component == old(component)
        invariant old(nodeVisitNumbers.Keys) <= nodeVisitNumbers.Keys
        invariant old(visitStack) != [] ==> visitStack != []
        invariant old(visitStack) == [] ==> View() == old(View())
        decreases |adj| - |nodeVisitNumbers|, |visitStack|
      {
        InvBasics(adj, Roots(workList, collapsed), View());
        DfsVisitChildren();
        ghost var d := View();
        InvBasics(adj, Roots(workList, collapsed), d);
        var visiting, minVisitNum := PopFrame();
        if minVisitNum != nodeVisitNumbers[visiting] {
          continue;
        }
        CompleteScc(visiting, d);
        return;
      }
    }

    /** The members of a fresh iterator over the given work list. */
    constructor (adj: Adj, collapsed: seq<bool>, workList: seq<bool>)
      requires IsGraph(adj) && |adj| < DONE && |collapsed| == |workList| == |adj|
      ensures this.adj == adj && this.collapsed == collapsed && this.workList == workList
      ensures Valid() && visitStack == [] && currentScc == [] && emitted == []
      ensures visitedNode == workList && lastRoot == 0 && nodeVisitNumbers == map[] && component == map[]
    {
      InvStart(adj, Roots(workList, collapsed));
      this.adj, this.collapsed, this.workList := adj, collapsed, workList;
      visitNum, nodeVisitNumbers, sccNodeStack, currentScc, visitStack := 0, map[], [], [], [];
      visitedNode, lastRoot := workList, 0;
      emitted, component := [], map[];
    }

    /** The body of the constructor: start the traversal at the first unset node, if any. */
    method Begin()
      requires Valid() && visitStack == [] && currentScc == [] && emitted == []
      requires visitedNode == workList && lastRoot == 0 && nodeVisitNumbers == map[] && component == map[]
      modifies this
      ensures Valid() && Started()
      ensures currentScc == [] ==> emitted == [] && Finished()
      ensures currentScc != [] ==> emitted == [currentScc]
    {
      hide Inv;
      var first := FindNextUnset(visitedNode, -1);
      if first < 0 {
        return;
      }
      EnterRoot(first);
      GetNextScc();
    }

    /** Start a new sub graph at the root `n`. */
    method EnterRoot(n: nat)
      requires Valid() && visitStack == [] && n in Roots(workList, collapsed) && n < |adj| && n !in nodeVisitNumbers
      modifies `visitNum, `nodeVisitNumbers, `sccNodeStack, `visitStack, `visitedNode
      ensures Valid() && visitStack != [] && n in nodeVisitNumbers && old(nodeVisitNumbers.Keys) <= nodeVisitNumbers.Keys
    {
      hide Inv;
      EnterRootKeeps(adj, Roots(workList, collapsed), View(), n);
      DfsVisitOne(n);
    }

    /** Every root has been visited, and everything visited has been emitted. */
    ghost predicate Finished()
      reads this
    {
      && visitStack == [] && nodeVisitNumbers.Keys == component.Keys
      && Roots(workList, collapsed) <= component.Keys
    }

    /** `nextSubGraph`: resume from the next unset node that has no super node. */
    method NextSubGraph() returns (more: bool)
      requires Valid() && Started() && visitStack == [] && currentScc == []
      modifies this
      ensures Valid() && Started()
      ensures more ==> currentScc != [] && emitted == old(emitted) + [currentScc] && old(component.Keys) < component.Keys
      ensures !more ==> currentScc == [] && emitted == old(emitted) && component == old(component) && Finished()
    {
      hide Inv;
      var root := FindNextUnset(visitedNode, lastRoot);
      while root > 0
        invariant Valid() && Started() && View() == old(View()) && currentScc == []
        invariant root == -1 || lastRoot < root < |adj|
        invariant root == -1 ==> forall v :: lastRoot < v < |adj| ==> visitedNode[v]
        invariant root != -1 ==> !visitedNode[root] && forall v :: lastRoot < v < root ==> visitedNode[v]
        decreases if root == -1 then 0 else |adj| - root
      {
        lastRoot := root;
        if !collapsed[root] {
          EnterRoot(root);
          GetNextScc();
          return true;
        }
        root := FindNextUnset(visitedNode, lastRoot);
      }
      InvDone(adj, Roots(workList, collapsed), View());
      return false;
    }

    /** `operator++`. */
    method Next()
      requires Valid() && Started() && currentScc != []
      modifies this
      ensures Valid() && Started()
      ensures currentScc != [] ==> emitted == old(emitted) + [currentScc] && old(component.Keys) < component.Keys
      ensures currentScc == [] ==> emitted == old(emitted) && component == old(component) && Finished()
    {
      GetNextScc();
      if currentScc == [] {
        var _ := NextSubGraph();
      }
    }
  }

  /**
   * `sccs` lists, each exactly once, the strongly connected components of the nodes reachable from
   * `roots`; an edge never leads from a component to one listed later, and `comp` numbers them.
   */
  ghost predicate IsSccOrder(adj: Adj, roots: set<nat>, sccs: seq<seq<nat>>, comp: map<nat, nat>) {
    && Emitted(adj, sccs, comp)
    && (forall v :: v in comp ==> v < |adj| && FromRoot(adj, roots, v))
    && (forall v :: FromRoot(adj, roots, v) ==> v in comp)
  }

  lemma RootsStay(adj: Adj, roots: set<nat>, X: set<nat>, v: nat)
    requires forall x, y :: x in X && x < |adj| && y in adj[x] ==> y in X
    requires roots <= X && FromRoot(adj, roots, v)
    ensures v in X
  {
    var r :| r in roots && Reach(adj, r, v);
    ReachStays(adj, X, r, v);
  }

  lemma OrderFromRoots(adj: Adj, roots: set<nat>, out: seq<seq<nat>>, comp: map<nat, nat>)
    requires Emitted(adj, out, comp) && roots <= comp.Keys
    requires forall v :: v in comp ==> v < |adj| && FromRoot(adj, roots, v)
    ensures IsSccOrder(adj, roots, out, comp)
  {
    hide Listed, StronglyConnected, FromRoot;
    forall v: nat | FromRoot(adj, roots, v)
      ensures v in comp
    {
      RootsStay(adj, roots, comp.Keys, v);
    }
  }

  lemma FinishedOrder(adj: Adj, roots: set<nat>, d: Dfs)
    requires Inv(adj, roots, d) && d.frames == [] && roots <= d.comp.Keys
    ensures IsSccOrder(adj, roots, d.out, d.comp)
  {
    InvDone(adj, roots, d);
    hide *;
    OrderFromRoots(adj, roots, d.out, d.comp);
  }

  /** The loop over the iterator at the start of a solver round. */
  method AllSccs(adj: Adj, collapsed: seq<bool>, workList: seq<bool>) returns (sccs: seq<seq<nat>>, ghost comp: map<nat, nat>)
    requires IsGraph(adj) && |adj| < DONE && |collapsed| == |workList| == |adj|
    ensures IsSccOrder(adj, Roots(workList, collapsed), sccs, comp)
  {
    hide Inv, Roots;
    var it := new SccIterator(adj, collapsed, workList);
    it.Begin();
    sccs := [];
    while it.currentScc != []
      invariant fresh(it) && it.adj == adj && it.collapsed == collapsed && it.workList == workList
      invariant it.Valid() && it.Started()
      invariant it.emitted == if it.currentScc == [] then sccs else sccs + [it.currentScc]
      invariant it.currentScc == [] ==> it.Finished()
      decreases Numbers(|adj|) - it.component.Keys, it.currentScc != []
    {
      sccs := sccs + [it.currentScc];
      it.Next();
      InvBasics(adj, Roots(workList, collapsed), it.View());
    }
    FinishedOrder(adj, Roots(workList, collapsed), it.View());
    comp := it.component;
  }
}
