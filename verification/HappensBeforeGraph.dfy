/** The class that builds and queries the happens-before graph (src/Analysis/HappensBeforeGraph.cpp:157-396). */
module HappensBeforeGraphs {
  import opened Options
  import opened Traces
  import opened Walks
  import opened HappensBefore

  /** `q` is the last barrier event before `e` for the same barrier instruction. */
  ghost predicate IsPrevBarrier(p: Program, e: Pid, q: Pid) {
    && p.IsEvent(e) && p.IsEvent(q) && p.At(e).Barrier? && p.At(q) == p.At(e) && q.Less(e)
    && forall r: Pid :: p.IsEvent(r) && p.At(r) == p.At(e) && r.Less(e) ==> r == q || r.Less(q)
  }

  /** The event `e` gives rise to the sync edge `f`. */
  ghost predicate Contributes(p: Program, e: Pid, f: Arc) {
    p.IsEvent(e) &&
    match p.At(e)
    case Fork(_, _) => f.src == e && f.dst.eid == 0 && p.IsEvent(f.dst) && p.threads[f.dst.tid].spawn == Some(e)
    case Join => f.dst == e && e in p.joined && f.src.tid == p.joined[e] && p.IsEvent(f.src) && !p.IsEvent(After(f.src))
    case Barrier(_) => (IsPrevBarrier(p, e, f.dst) && f.src == e) || (IsPrevBarrier(p, e, f.src) && f.dst == e)
    case _ => false
  }

  ghost predicate Contributed(p: Program, f: Arc, before: Pid) {
    exists e: Pid :: e.Less(before) && Contributes(p, e, f)
  }

  /** `S` are exactly the sync edges of the program. */
  ghost predicate IsSyncArcs(p: Program, S: set<Arc>) {
    forall f :: f in S <==> exists e :: Contributes(p, e, f)
  }

  /** Every fork has its thread, and only one; joins were matched with known threads. */
  ghost predicate ForksMatched(p: Program) {
    && (forall e: Pid :: p.IsEvent(e) && p.At(e).Fork? ==> exists c :: 0 <= c < |p.threads| && p.threads[c].spawn == Some(e))
    && (forall c, d :: 0 <= c < d < |p.threads| && p.threads[c].spawn.Some? ==> p.threads[c].spawn != p.threads[d].spawn)
    && (forall e :: e in p.joined ==> p.joined[e] < |p.threads|)
  }

  /** `std::lower_bound`: the first position whose event is not below `e`. */
  method LowerBound(list: seq<Pid>, e: Pid) returns (k: nat)
    requires forall i, j :: 0 <= i < j < |list| ==> list[i].Less(list[j])
    ensures k <= |list| && (forall i :: 0 <= i < k ==> list[i].Less(e)) && forall i :: k <= i < |list| ==> !list[i].Less(e)
  {
    k := 0;
    while k < |list| && list[k].Less(e)
      invariant k <= |list| && forall i :: 0 <= i < k ==> list[i].Less(e)
    {
      k := k + 1;
    }
  }

  lemma SyncListSorted(X: set<Pid>, t: nat, list: seq<Pid>)
    requires IsSyncList(X, t, list)
    ensures forall i, j :: 0 <= i < j < |list| ==> list[i].Less(list[j])
  {
  }

  lemma InsertAscending(list: seq<Pid>, e: Pid, k: nat)
    requires Ascending(e.tid, list) && e !in list && k <= |list|
    requires (forall i :: 0 <= i < k ==> list[i].Less(e)) && forall i :: k <= i < |list| ==> !list[i].Less(e)
    ensures Ascending(e.tid, list[..k] + [e] + list[k..])
  {
    var r := list[..k] + [e] + list[k..];
    forall m | 0 <= m < |r|
      ensures r[m] == if m < k then list[m] else if m == k then e else list[m - 1]
      ensures r[m].tid == e.tid
      ensures (m < k ==> r[m].eid < e.eid) && (m > k ==> r[m].eid > e.eid)
    {
      if m > k {
        assert list[m - 1] in list;
      }
    }
  }

  lemma InsertMembers(list: seq<Pid>, e: Pid, k: nat)
    requires k <= |list|
    ensures forall c :: c in list[..k] + [e] + list[k..] <==> c in list || c == e
  {
    assert list[..k] + list[k..] == list;
  }

  /** Inserting a new event at its lower bound keeps the list of its thread. */
  lemma InsertSync(X: set<Pid>, list: seq<Pid>, e: Pid, k: nat)
    requires IsSyncList(X, e.tid, list) && e !in list && k <= |list|
    requires (forall i :: 0 <= i < k ==> list[i].Less(e)) && forall i :: k <= i < |list| ==> !list[i].Less(e)
    ensures IsSyncList(X + {e}, e.tid, list[..k] + [e] + list[k..])
  {
    InsertAscending(list, e, k);
    hide Ascending;
    InsertMembers(list, e, k);
  }

  lemma OtherLists(X: set<Pid>, e: Pid, t: nat, list: seq<Pid>)
    requires IsSyncList(X, t, list) && (t != e.tid || e in list)
    ensures IsSyncList(X + {e}, t, list)
  {
  }

  /** Position of the first entry of the work list that has not been visited, or its length. */
  ghost function FirstUnvisited(worklist: seq<Pid>, visited: set<Pid>): nat {
    if worklist == [] || worklist[0] !in visited then 0 else 1 + FirstUnvisited(worklist[1..], visited)
  }

  /** Popping a visited node re-adds only unvisited ones, and only if one is still queued: the first one moves up. */
  lemma {:induction false} RepeatedVisit(tail: seq<Pid>, news: seq<Pid>, visited: set<Pid>)
    requires news != [] ==> exists w :: w in tail && w !in visited
    ensures FirstUnvisited(tail + news, visited) == FirstUnvisited(tail, visited)
  {
    if tail == [] {
      assert tail + news == [];
    } else if tail[0] in visited {
      RepeatedVisit(tail[1..], news, visited);
      assert (tail + news)[1..] == tail[1..] + news;
    }
  }

  class HappensBeforeGraph {
    var syncEdges: map<Pid, set<Pid>>
    var syncReachable: map<Pid, set<Pid>>
    var threadSyncs: map<nat, seq<Pid>>
    ghost var arcs: set<Arc>

    /** The edge map and the per-thread lists say what `arcs` says. */
    ghost predicate Linked()
      reads this
    {
      && (forall a, b :: Arc(a, b) in arcs <==> a in syncEdges && b in syncEdges[a])
      && SyncLists(Endpoints(arcs), threadSyncs)
    }

    /** `addSync`: insert into the sorted list of the thread, once. */
    method AddSync(e: Pid, ghost X: set<Pid>)
      requires SyncLists(X, threadSyncs)
      modifies `threadSyncs
      ensures SyncLists(X + {e}, threadSyncs)
    {
      var list := if e.tid in threadSyncs then threadSyncs[e.tid] else [];
      assert IsSyncList(X, e.tid, list);
      SyncListSorted(X, e.tid, list);
      var k := LowerBound(list, e);
      if k < |list| && list[k] == e {
        forall t | t in threadSyncs
          ensures IsSyncList(X + {e}, t, threadSyncs[t])
        {
          OtherLists(X, e, t, threadSyncs[t]);
        }
        return;
      }
      assert e !in list;
      InsertSync(X, list, e, k);
      forall t | t in threadSyncs && t != e.tid
        ensures IsSyncList(X + {e}, t, threadSyncs[t])
      {
        OtherLists(X, e, t, threadSyncs[t]);
      }
      hide IsSyncList;
      threadSyncs := threadSyncs[e.tid := list[..k] + [e] + list[k..]];
    }

    /** `addSyncEdge`. */
    method AddSyncEdge(src: Pid, dst: Pid)
      requires Linked()
      modifies `syncEdges, `threadSyncs, `arcs
      ensures Linked() && arcs == old(arcs) + {Arc(src, dst)}
    {
      hide IsSyncList;
      ghost var X := Endpoints(arcs);
      syncEdges := syncEdges[src := (if src in syncEdges then syncEdges[src] else {}) + {dst}];
      AddSync(src, X);
      AddSync(dst, X + {src});
      arcs := arcs + {Arc(src, dst)};
      assert Endpoints(arcs) == X + {src} + {dst} by {
        EndpointsAdd(old(arcs), src, dst);
      }
    }

    /** `getForkedThread`: the first thread spawned by the fork event `e`. */
    method ForkedThread(p: Program, e: Pid) returns (c: nat)
      requires exists d :: 0 <= d < |p.threads| && p.threads[d].spawn == Some(e)
      ensures c < |p.threads| && p.threads[c].spawn == Some(e)
    {
      c := 0;
      while p.threads[c].spawn != Some(e)
        invariant c < |p.threads| && exists d :: c <= d < |p.threads| && p.threads[d].spawn == Some(e)
        decreases |p.threads| - c
      {
        c := c + 1;
      }
    }

    /** `findNextSyncAfter`: the next sync event on the thread, strictly after `e`. */
    method FindNextSyncAfter(e: Pid) returns (r: Option<Pid>)
      requires Linked()
      ensures r.Some? ==> r.value in Endpoints(arcs) && r.value.tid == e.tid && e.eid < r.value.eid
      ensures forall c: Pid :: c in Endpoints(arcs) && c.tid == e.tid && e.eid < c.eid ==> r.Some? && r.value.eid <= c.eid
    {
      if e.tid !in threadSyncs {
        return None;
      }
      var list := threadSyncs[e.tid];
      assert IsSyncList(Endpoints(arcs), e.tid, list);
      hide Linked, Endpoints;
      var k := 0;
      while k < |list| && !e.Less(list[k])
        invariant k <= |list| && forall i :: 0 <= i < k ==> list[i].eid <= e.eid
      {
        k := k + 1;
      }
      return if k < |list| then Some(list[k]) else None;
    }

    /** `findNextSync`: the event itself if it is a sync event, otherwise the next one on the thread. */
    method FindNextSync(e: Pid) returns (r: Option<Pid>)
      requires Linked()
      ensures IsNext(Endpoints(arcs), e, r)
    {
      if e.tid !in threadSyncs {
        return None;
      }
      var list := threadSyncs[e.tid];
      assert IsSyncList(Endpoints(arcs), e.tid, list);
      SyncListSorted(Endpoints(arcs), e.tid, list);
      hide Linked, Endpoints;
      var k := LowerBound(list, e);
      return if k < |list| then Some(list[k]) else None;
    }

    /** `findPrevSync`: the last sync event on the thread that is not after `e`, searched from the back. */
    method FindPrevSync(e: Pid) returns (r: Option<Pid>)
      requires Linked()
      ensures IsPrev(Endpoints(arcs), e, r)
    {
      if e.tid !in threadSyncs {
        return None;
      }
      var list := threadSyncs[e.tid];
      assert IsSyncList(Endpoints(arcs), e.tid, list);
      hide Linked, Endpoints;
      var k := |list|;
      while k > 0
        invariant 0 <= k <= |list| && forall i :: k <= i < |list| ==> e.eid < list[i].eid
      {
        k := k - 1;
        if !e.Less(list[k]) {
          return Some(list[k]);
        }
      }
      return None;
    }

    /** The unvisited nodes that `node` leads to in one step of the compressed graph. */
    method Successors(node: Pid, visited: set<Pid>) returns (news: seq<Pid>)
      requires Linked() && node in Endpoints(arcs)
      ensures forall w :: w in news <==> Arc(node, w) in SyncGraph(arcs) && w !in visited
    {
      news := [];
      var todo := if node in syncEdges then syncEdges[node] else {};
      ghost var all := todo;
      assert forall w :: w in all <==> Arc(node, w) in arcs;
      var opt := FindNextSyncAfter(node);
      assert forall w :: Arc(node, w) in SyncGraph(arcs) <==> w in all || opt == Some(w) by {
        forall w
          ensures Arc(node, w) in SyncGraph(arcs) <==> w in all || opt == Some(w)
        {
          assert opt == Some(w) ==> NextSync(Endpoints(arcs), node, w);
          assert NextSync(Endpoints(arcs), node, w) ==> opt == Some(w);
        }
      }
      hide Linked, SyncGraph, Endpoints;
      while todo != {}
        invariant todo <= all && forall w :: w in news <==> w in all - todo && w !in visited
      {
        var next :| next in todo;
        if next !in visited {
          news := news + [next];
        }
        todo := todo - {next};
      }
      if opt.Some? && opt.value !in visited {
        news := news + [opt.value];
      }
    }

    /** Everything the compressed graph leads to from one sync event. */
    method Closure(src: Pid) returns (visited: set<Pid>)
      requires Linked() && src in Endpoints(arcs)
      ensures forall x :: x in visited <==> Leads(SyncGraph(arcs), src, x)
    {
      hide Linked, SyncGraph, Leads;
      ghost var G, U := SyncGraph(arcs), Endpoints(arcs);
      assert forall f :: f in G ==> f.dst in U by {
        GraphInside(arcs);
      }
      hide Endpoints;
      var worklist := [src];
      visited := {};
      LeadsRefl(G, src);
      while worklist != []
        invariant visited <= U && (src in visited || src in worklist)
        invariant forall x :: x in worklist ==> x in U && Leads(G, src, x)
        invariant forall x :: x in visited ==> Leads(G, src, x)
        invariant forall f :: f in G && f.src in visited ==> f.dst in visited || f.dst in worklist
        decreases U - visited, FirstUnvisited(worklist, visited)
      {
        var node := worklist[0];
        assert node in worklist;
        ghost var before := visited;
        visited := visited + {node};
        ghost var tail := worklist[1..];
        assert worklist == [node] + tail;
        var news := Successors(node, visited);
        forall x | x in news
          ensures x in U && Leads(G, src, x)
        {
          LeadsEdge(G, node, x);
          LeadsTrans(G, src, node, x);
        }
        if node in before {
          assert visited == before;
          assert news != [] ==> news[0] in news;
          assert forall w :: w in news ==> Arc(node, w) in G && w in tail;
          RepeatedVisit(tail, news, visited);
        }
        worklist := worklist[1..] + news;
      }
      forall x | Leads(G, src, x)
        ensures x in visited
      {
        LeadsStays(G, visited, src, x);
      }
    }

    /** The closure of every sync event has been computed. */
    ghost predicate Closed()
      reads this
    {
      && (forall a :: a in Endpoints(arcs) <==> a in syncReachable)
      && (forall a, x :: a in syncReachable ==> (x in syncReachable[a] <==> Leads(SyncGraph(arcs), a, x)))
    }

    /** The second loop of the constructor: the closure from every sync event. */
    method CloseAll()
      requires Linked() && syncReachable == map[]
      modifies `syncReachable
      ensures Linked() && Closed()
    {
      var allSrcs := AllSyncs();
      hide Linked, SyncGraph, Leads, Endpoints;
      var todo := allSrcs;
      while todo != {}
        invariant todo <= allSrcs && syncReachable.Keys == allSrcs - todo
        invariant forall a, x :: a in syncReachable ==> (x in syncReachable[a] <==> Leads(SyncGraph(arcs), a, x))
      {
        var src :| src in todo;
        var visited := Closure(src);
        syncReachable := syncReachable[src := visited];
        todo := todo - {src};
      }
    }

    /** All sync events of all threads. */
    method AllSyncs() returns (r: set<Pid>)
      requires Linked()
      ensures r == Endpoints(arcs)
    {
      r := set t, i | t in threadSyncs && 0 <= i < |threadSyncs[t]| :: threadSyncs[t][i];
      forall e | e in Endpoints(arcs)
        ensures e in r
      {
        assert IsSyncList(Endpoints(arcs), e.tid, threadSyncs[e.tid]);
      }
      forall e | e in r
        ensures e in Endpoints(arcs)
      {
        var t, i :| t in threadSyncs && 0 <= i < |threadSyncs[t]| && threadSyncs[t][i] == e;
        assert IsSyncList(Endpoints(arcs), t, threadSyncs[t]);
        assert e in threadSyncs[t];
      }
    }

    constructor (p: Program)
      requires ForksMatched(p)
      ensures Linked() && Closed() && IsSyncArcs(p, arcs)
    {
      syncEdges, syncReachable, threadSyncs, arcs := map[], map[], map[], {};
      new;
      AddEdges(p);
      CloseAll();
    }

    /** `hasEdge`. */
    predicate HasEdge(a: Pid, b: Pid)
      reads this
    {
      a == b || (a in syncEdges && b in syncEdges[a])
    }

    /** `isReachable`. */
    predicate IsReachable(a: Pid, b: Pid)
      reads this
    {
      a in syncReachable && b in syncReachable[a]
    }

    /** `canReach`, for events on different threads: exactly the paths of the full event graph. */
    method CanReach(ghost p: Program, src: Pid, dst: Pid) returns (r: bool)
      requires Linked() && Closed() && SyncsOk(p, arcs) && p.IsEvent(src) && p.IsEvent(dst) && src.tid != dst.tid
      ensures r <==> Leads(EventGraph(p, arcs), src, dst)
    {
      var srcSync := FindNextSync(src);
      var dstSync := FindPrevSync(dst);
      CompressionExact(p, arcs, threadSyncs, src, dst, srcSync, dstSync);
      hide Leads;
      if srcSync.None? {
        return false;
      }
      if dstSync.None? {
        return false;
      }
      if HasEdge(srcSync.value, dstSync.value) {
        assert Leads(SyncGraph(arcs), srcSync.value, dstSync.value) by {
          SyncEdgeLeads(arcs, srcSync.value, dstSync.value);
        }
        return true;
      }
      return IsReachable(srcSync.value, dstSync.value);
    }

    /** `areParallel`. */
    method AreParallel(ghost p: Program, a: Pid, b: Pid) returns (r: bool)
      requires Linked() && Closed() && SyncsOk(p, arcs) && p.IsEvent(a) && p.IsEvent(b) && a.tid != b.tid
      ensures r <==> !Leads(EventGraph(p, arcs), a, b) && !Leads(EventGraph(p, arcs), b, a)
    {
      var ab := CanReach(p, a, b);
      var ba := CanReach(p, b, a);
      r := !ab && !ba;
    }

    /** The sync edges of all events before `at` are there, and no others. */
    ghost predicate Visited(p: Program, at: Pid)
      reads this
    {
      Linked() && forall f :: f in arcs <==> Contributed(p, f, at)
    }

    /** The loop over all events that adds the sync edges. */
    method AddEdges(p: Program)
      requires ForksMatched(p) && Linked() && arcs == {}
      modifies `syncEdges, `threadSyncs, `arcs
      ensures Linked() && IsSyncArcs(p, arcs)
    {
      hide SyncLists, ForksMatched;
      var lastBarrier: map<nat, Pid> := map[];
      var t := 0;
      while t < |p.threads|
        invariant t <= |p.threads| && Visited(p, Pid(t, 0)) && BarriersSeen(p, lastBarrier, Pid(t, 0))
      {
        var i := 0;
        while i < |p.threads[t].events|
          invariant i <= |p.threads[t].events| && Visited(p, Pid(t, i)) && BarriersSeen(p, lastBarrier, Pid(t, i))
        {
          lastBarrier := VisitEvent(p, Pid(t, i), lastBarrier);
          i := i + 1;
        }
        forall e: Pid | p.IsEvent(e)
          ensures e.Less(Pid(t, i)) <==> e.Less(Pid(t + 1, 0))
        {
          NextThread(p, t, e);
        }
        assert forall f :: Contributed(p, f, Pid(t, i)) <==> Contributed(p, f, Pid(t + 1, 0));
        t := t + 1;
      }
      assert forall e: Pid :: p.IsEvent(e) ==> e.Less(Pid(t, 0));
    }

    /** The body of that loop: dispatch on the kind of event. */
    method VisitEvent(p: Program, e: Pid, last: map<nat, Pid>) returns (last': map<nat, Pid>)
      requires ForksMatched(p) && p.IsEvent(e) && Visited(p, e) && BarriersSeen(p, last, e)
      modifies `syncEdges, `threadSyncs, `arcs
      ensures Visited(p, After(e)) && BarriersSeen(p, last', After(e))
    {
      BarriersStep(p, last, e);
      ContributedStep(p, e);
      hide SyncLists, ForksMatched, BarriersSeen, Contributed, BarrierBefore, Contributes;
      last' := last;
      match p.At(e) {
        case Fork(_, _) =>
          VisitFork(p, e);
        case Join =>
          VisitJoin(p, e);
        case Barrier(b) =>
          VisitBarrier(p, e, if b in last then Some(last[b]) else None);
          last' := last[b := e];
        case _ =>
          NothingContributed(p, e);
      }
    }

    /** One fork event: an edge to the first event of the thread it spawned. */
    method VisitFork(p: Program, e: Pid)
      requires Linked() && ForksMatched(p) && p.IsEvent(e) && p.At(e).Fork?
      modifies `syncEdges, `threadSyncs, `arcs
      ensures Linked() && forall f :: f in arcs <==> f in old(arcs) || Contributes(p, e, f)
    {
      hide SyncLists;
      var c := ForkedThread(p, e);
      if |p.threads[c].events| > 0 {
        AddSyncEdge(e, Pid(c, 0));
      }
      forall f | Contributes(p, e, f)
        ensures |p.threads[c].events| > 0 && f == Arc(e, Pid(c, 0))
      {
        assert f.dst.tid == c;
      }
    }

    /** One join event: an edge from the last event of the thread it was matched with. */
    method VisitJoin(p: Program, e: Pid)
      requires Linked() && ForksMatched(p) && p.IsEvent(e) && p.At(e).Join?
      modifies `syncEdges, `threadSyncs, `arcs
      ensures Linked() && forall f :: f in arcs <==> f in old(arcs) || Contributes(p, e, f)
    {
      hide SyncLists;
      if e in p.joined && |p.threads[p.joined[e]].events| > 0 {
        var last := Pid(p.joined[e], |p.threads[p.joined[e]].events| - 1);
        AddSyncEdge(last, e);
        forall f | Contributes(p, e, f)
          ensures f == Arc(last, e)
        {
        }
      }
    }

    /** One barrier event: edges both ways to the previous event of the same barrier. */
    method VisitBarrier(p: Program, e: Pid, prev: Option<Pid>)
      requires Linked() && p.IsEvent(e) && p.At(e).Barrier? && BarrierBefore(p, e, prev)
      modifies `syncEdges, `threadSyncs, `arcs
      ensures Linked() && forall f :: f in arcs <==> f in old(arcs) || Contributes(p, e, f)
    {
      hide SyncLists;
      if prev.Some? {
        AddSyncEdge(e, prev.value);
        AddSyncEdge(prev.value, e);
      }
      forall f | Contributes(p, e, f)
        ensures prev.Some? && (f == Arc(e, prev.value) || f == Arc(prev.value, e))
      {
        BarrierUnique(p, e, prev, if f.src == e && IsPrevBarrier(p, e, f.dst) then f.dst else f.src);
      }
    }
  }

  /** What the last-barrier map knows when the events before `at` have been visited. */
  ghost predicate BarriersSeen(p: Program, last: map<nat, Pid>, at: Pid) {
    && (forall b :: b in last ==> IsBarrier(p, last[b], b) && last[b].Less(at))
    && (forall b, r: Pid :: IsBarrier(p, r, b) && r.Less(at) ==> b in last && (r == last[b] || r.Less(last[b])))
  }

  ghost predicate IsBarrier(p: Program, e: Pid, b: nat) {
    p.IsEvent(e) && p.At(e) == Barrier(b)
  }

  lemma ContributedStep(p: Program, e: Pid)
    ensures forall f :: Contributed(p, f, After(e)) <==> Contributed(p, f, e) || Contributes(p, e, f)
  {
    forall f
      ensures Contributed(p, f, After(e)) <==> Contributed(p, f, e) || Contributes(p, e, f)
    {
      assert forall d: Pid :: d.Less(After(e)) <==> d.Less(e) || d == e;
    }
  }

  lemma NothingContributed(p: Program, e: Pid)
    requires p.IsEvent(e) && !p.At(e).Fork? && !p.At(e).Join? && !p.At(e).Barrier?
    ensures forall f :: !Contributes(p, e, f)
  {
  }

  lemma BarriersStep(p: Program, last: map<nat, Pid>, e: Pid)
    requires p.IsEvent(e) && BarriersSeen(p, last, e)
    ensures p.At(e).Barrier? ==>
      var b := p.At(e).inst;
      BarrierBefore(p, e, if b in last then Some(last[b]) else None) && BarriersSeen(p, last[b := e], After(e))
    ensures !p.At(e).Barrier? ==> BarriersSeen(p, last, After(e))
  {
    if p.At(e).Barrier? {
      forall r: Pid | p.IsEvent(r) && p.At(r) == p.At(e)
        ensures IsBarrier(p, r, p.At(e).inst)
      {
      }
    }
  }

  /** Moving on past the end of a thread skips no event. */
  lemma NextThread(p: Program, t: nat, e: Pid)
    requires t < |p.threads| && p.IsEvent(e)
    ensures e.Less(Pid(t, |p.threads[t].events|)) <==> e.Less(Pid(t + 1, 0))
  {
  }

  /** `prev` is the last event before `e` of the barrier that `e` is an event of, if there is one. */
  ghost predicate BarrierBefore(p: Program, e: Pid, prev: Option<Pid>)
    requires p.IsEvent(e)
  {
    match prev
    case Some(q) => IsPrevBarrier(p, e, q)
    case None => forall r: Pid :: p.IsEvent(r) && p.At(r) == p.At(e) ==> !r.Less(e)
  }

  lemma BarrierUnique(p: Program, e: Pid, prev: Option<Pid>, q: Pid)
    requires p.IsEvent(e) && BarrierBefore(p, e, prev) && IsPrevBarrier(p, e, q)
    ensures prev == Some(q)
  {
  }

  lemma GraphInside(S: set<Arc>)
    ensures forall f :: f in SyncGraph(S) ==> f.src in Endpoints(S) && f.dst in Endpoints(S)
  {
  }

  /** Every sync edge of the program joins two events. */
  lemma SyncArcsOk(p: Program, S: set<Arc>)
    requires IsSyncArcs(p, S)
    ensures SyncsOk(p, S)
  {
  }

  lemma EndpointsAdd(S: set<Arc>, a: Pid, b: Pid)
    ensures Endpoints(S + {Arc(a, b)}) == Endpoints(S) + {a} + {b}
  {
    var f := Arc(a, b);
    assert f in S + {f} && f.src == a && f.dst == b;
    assert a in Endpoints(S + {f}) && b in Endpoints(S + {f});
  }

  /** An event of a barrier that was met before has a last one before it. */
  lemma {:induction false} PrevBarrier(p: Program, e: Pid, q: Pid) returns (r: Pid)
    requires p.IsEvent(e) && p.IsEvent(q) && p.At(e).Barrier? && p.At(q) == p.At(e) && q.Less(e)
    ensures IsPrevBarrier(p, e, r)
    decreases e.tid - q.tid, |p.threads[q.tid].events| - q.eid
  {
    if c: Pid :| p.IsEvent(c) && p.At(c) == p.At(e) && c.Less(e) && q.Less(c) {
      r := PrevBarrier(p, e, c);
    } else {
      r := q;
      forall c: Pid | p.IsEvent(c) && p.At(c) == p.At(e) && c.Less(e)
        ensures c == q || c.Less(q)
      {
        assert c == Pid(c.tid, c.eid) && q == Pid(q.tid, q.eid);
      }
    }
  }

  /** A barrier event and the one before it are ordered both ways. */
  lemma BarrierOrdersBothWays(p: Program, S: set<Arc>, e: Pid, q: Pid)
    requires IsSyncArcs(p, S) && p.IsEvent(e) && p.At(e).Barrier? && IsPrevBarrier(p, e, q)
    ensures e != q && Leads(EventGraph(p, S), e, q) && Leads(EventGraph(p, S), q, e)
  {
    assert Contributes(p, e, Arc(e, q)) && Contributes(p, e, Arc(q, e));
    LeadsEdge(EventGraph(p, S), e, q);
    LeadsEdge(EventGraph(p, S), q, e);
  }

  /** All events of a barrier lead to each other. */
  lemma {:induction false} BarrierLeads(p: Program, S: set<Arc>, e: Pid, f: Pid)
    requires IsSyncArcs(p, S) && p.IsEvent(e) && p.IsEvent(f) && p.At(e).Barrier? && p.At(e) == p.At(f)
    ensures Leads(EventGraph(p, S), e, f) && Leads(EventGraph(p, S), f, e)
    decreases e.tid + f.tid, e.eid + f.eid
  {
    hide IsSyncArcs, EventGraph, Leads;
    var E := EventGraph(p, S);
    if e == f {
      LeadsRefl(E, e);
    } else {
      assert e.Less(f) || f.Less(e) by {
        assert e == Pid(e.tid, e.eid) && f == Pid(f.tid, f.eid);
      }
      var early, late := if e.Less(f) then e else f, if e.Less(f) then f else e;
      var q := PrevBarrier(p, late, early);
      BarrierOrdersBothWays(p, S, late, q);
      BarrierLeads(p, S, early, q);
      LeadsTrans(E, early, q, late);
      LeadsTrans(E, late, q, early);
    }
  }

  /** A fork happens before everything its thread does. */
  lemma ForkLeads(p: Program, S: set<Arc>, e: Pid, f: Pid)
    requires IsSyncArcs(p, S) && p.IsEvent(e) && p.At(e).Fork? && p.IsEvent(f) && p.threads[f.tid].spawn == Some(e)
    ensures Leads(EventGraph(p, S), e, f)
  {
    var first := Pid(f.tid, 0);
    assert Contributes(p, e, Arc(e, first));
    assert Arc(e, first) in EventGraph(p, S);
    hide IsSyncArcs, EventGraph, Leads;
    LeadsEdge(EventGraph(p, S), e, first);
    OrderLeads(p, S, first, f);
    LeadsTrans(EventGraph(p, S), e, first, f);
  }

  /** Everything a thread does happens before a join that was matched with it. */
  lemma JoinLeads(p: Program, S: set<Arc>, e: Pid, f: Pid)
    requires IsSyncArcs(p, S) && p.IsEvent(e) && p.At(e).Join? && e in p.joined && p.IsEvent(f) && f.tid == p.joined[e]
    ensures Leads(EventGraph(p, S), f, e)
  {
    var last := Pid(f.tid, |p.threads[f.tid].events| - 1);
    assert Contributes(p, e, Arc(last, e));
    assert Arc(last, e) in EventGraph(p, S);
    hide IsSyncArcs, EventGraph, Leads;
    OrderLeads(p, S, f, last);
    LeadsEdge(EventGraph(p, S), last, e);
    LeadsTrans(EventGraph(p, S), f, last, e);
  }
}
