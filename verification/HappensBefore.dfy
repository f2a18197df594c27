/**
 * The happens-before graph over thread traces (src/Analysis/HappensBeforeGraph.cpp and .h): sync
 * edges, the compressed graph of sync events with its precomputed closure, and reachability queries.
 */
module HappensBefore {
  import opened Options
  import opened Traces
  import opened Walks

  /** Program order: every event leads to the next one on its thread. */
  ghost function ProgramOrder(p: Program): set<Arc> {
    set t, i | 0 <= t < |p.threads| && 0 <= i < |p.threads[t].events| - 1 :: Arc(Pid(t, i), After(Pid(t, i)))
  }

  function After(e: Pid): Pid {
    Pid(e.tid, e.eid + 1)
  }

  /** The full event graph for the given sync edges. */
  ghost function EventGraph(p: Program, S: set<Arc>): set<Arc> {
    ProgramOrder(p) + S
  }

  ghost predicate SyncsOk(p: Program, S: set<Arc>) {
    forall e :: e in S ==> p.IsEvent(e.src) && p.IsEvent(e.dst)
  }

  /** The sync events: those with a sync edge. */
  ghost function Endpoints(S: set<Arc>): set<Pid> {
    (set e | e in S :: e.src) + (set e | e in S :: e.dst)
  }

  /** `list` is the sorted list of the events of `X` on thread `t`. */
  ghost predicate IsSyncList(X: set<Pid>, t: nat, list: seq<Pid>) {
    Ascending(t, list) && forall e: Pid :: e in list <==> e in X && e.tid == t
  }

  ghost predicate Ascending(t: nat, list: seq<Pid>) {
    && (forall i :: 0 <= i < |list| ==> list[i].tid == t)
    && (forall i, j :: 0 <= i < j < |list| ==> list[i].eid < list[j].eid)
  }

  /** Each sync event leads to the next one on its thread. */
  ghost predicate NextSync(X: set<Pid>, a: Pid, b: Pid) {
    && a in X && b in X && a.tid == b.tid && a.eid < b.eid
    && forall c: Pid :: c in X && c.tid == a.tid && a.eid < c.eid ==> b.eid <= c.eid
  }

  /** The compressed graph of sync events. */
  ghost function SyncGraph(S: set<Arc>): set<Arc> {
    S + set a, b | a in Endpoints(S) && b in Endpoints(S) && NextSync(Endpoints(S), a, b) :: Arc(a, b)
  }

  /** On one thread the full graph leads from every event to all later ones. */
  lemma {:induction false} OrderLeads(p: Program, S: set<Arc>, a: Pid, b: Pid)
    requires a.tid == b.tid && a.eid <= b.eid && p.IsEvent(b)
    ensures Leads(EventGraph(p, S), a, b)
    decreases b.eid - a.eid
  {
    var E := EventGraph(p, S);
    if a == b {
      LeadsRefl(E, a);
    } else {
      var c := Pid(a.tid, a.eid + 1);
      assert Arc(a, c) in ProgramOrder(p);
      LeadsEdge(E, a, c);
      OrderLeads(p, S, c, b);
      LeadsTrans(E, a, c, b);
    }
  }

  /** Everything the compressed graph leads to, the full graph leads to. */
  lemma {:induction false} CompressedSound(p: Program, S: set<Arc>, a: Pid, w: seq<Pid>, b: Pid)
    requires SyncsOk(p, S) && IsWalk(SyncGraph(S), a, w, b)
    ensures Leads(EventGraph(p, S), a, b)
    decreases |w|
  {
    var E := EventGraph(p, S);
    if w == [] {
      LeadsRefl(E, a);
    } else {
      CompressedSound(p, S, w[0], w[1..], b);
      if Arc(a, w[0]) in S {
        LeadsEdge(E, a, w[0]);
      } else {
        assert NextSync(Endpoints(S), a, w[0]);
        OrderLeads(p, S, a, w[0]);
      }
      LeadsTrans(E, a, w[0], b);
    }
  }

  /** The compressed graph leads along the sync events of one thread. */
  lemma {:induction false} ListLeads(S: set<Arc>, t: nat, list: seq<Pid>, i: nat, j: nat)
    requires IsSyncList(Endpoints(S), t, list) && i <= j < |list|
    ensures Leads(SyncGraph(S), list[i], list[j])
    decreases j - i
  {
    hide Leads;
    var G := SyncGraph(S);
    if i == j {
      LeadsRefl(G, list[i]);
    } else {
      ListNext(Endpoints(S), t, list, i);
      assert Arc(list[i], list[i + 1]) in G;
      LeadsEdge(G, list[i], list[i + 1]);
      ListLeads(S, t, list, i + 1, j);
      LeadsTrans(G, list[i], list[i + 1], list[j]);
    }
  }

  lemma ListNext(X: set<Pid>, t: nat, list: seq<Pid>, i: nat)
    requires IsSyncList(X, t, list) && i + 1 < |list|
    ensures NextSync(X, list[i], list[i + 1])
  {
    forall c: Pid | c in X && c.tid == t && list[i].eid < c.eid
      ensures list[i + 1].eid <= c.eid
    {
      var k :| 0 <= k < |list| && list[k] == c;
      assert k > i;
    }
  }

  /** The sorted sync events of every thread that has any. */
  ghost predicate SyncLists(X: set<Pid>, syncs: map<nat, seq<Pid>>) {
    && (forall t :: t in syncs ==> IsSyncList(X, t, syncs[t]))
    && (forall e :: e in X ==> e.tid in syncs)
  }

  /** Two sync events of one thread are joined by the compressed graph in program order. */
  lemma SyncsOrdered(S: set<Arc>, syncs: map<nat, seq<Pid>>, a: Pid, b: Pid)
    requires SyncLists(Endpoints(S), syncs) && a in Endpoints(S) && b in Endpoints(S) && a.tid == b.tid && a.eid <= b.eid
    ensures Leads(SyncGraph(S), a, b)
  {
    var list := syncs[a.tid];
    assert IsSyncList(Endpoints(S), a.tid, list);
    var i :| 0 <= i < |list| && list[i] == a;
    var j :| 0 <= j < |list| && list[j] == b;
    assert i <= j;
    ListLeads(S, a.tid, list, i, j);
  }

  /** The compressed graph leads from a sync event at or after `a` to one at or before `b`. */
  ghost predicate Bridged(S: set<Arc>, a: Pid, b: Pid) {
    exists s, d :: Bridge(S, a, b, s, d)
  }

  ghost predicate Bridge(S: set<Arc>, a: Pid, b: Pid, s: Pid, d: Pid) {
    && s in Endpoints(S) && s.tid == a.tid && a.eid <= s.eid
    && d in Endpoints(S) && d.tid == b.tid && d.eid <= b.eid
    && Leads(SyncGraph(S), s, d)
  }

  /** A walk in the full graph stays on its thread or crosses the compressed graph. */
  lemma {:induction false} WalkBridged(p: Program, S: set<Arc>, syncs: map<nat, seq<Pid>>, a: Pid, w: seq<Pid>, b: Pid)
    requires SyncLists(Endpoints(S), syncs) && IsWalk(EventGraph(p, S), a, w, b)
    ensures (a.tid == b.tid && a.eid <= b.eid) || Bridged(S, a, b)
    decreases |w|
  {
    hide Leads, SyncGraph;
    if w != [] {
      var c := w[0];
      WalkBridged(p, S, syncs, c, w[1..], b);
      if Arc(a, c) in S {
        assert a in Endpoints(S) && c in Endpoints(S);
        SyncEdgeLeads(S, a, c);
        if Bridged(S, c, b) {
          var s, d :| Bridge(S, c, b, s, d);
          SyncsOrdered(S, syncs, c, s);
          LeadsTrans(SyncGraph(S), a, c, s);
          LeadsTrans(SyncGraph(S), a, s, d);
          assert Bridge(S, a, b, a, d);
        } else {
          assert Bridge(S, a, b, a, c);
        }
      } else if Bridged(S, c, b) {
        var s, d :| Bridge(S, c, b, s, d);
        assert Bridge(S, a, b, s, d);
      }
    }
  }

  lemma SyncEdgeLeads(S: set<Arc>, a: Pid, b: Pid)
    requires Arc(a, b) in S
    ensures Leads(SyncGraph(S), a, b)
  {
    LeadsEdge(SyncGraph(S), a, b);
  }

  /**
   * For events on different threads, the full graph leads from `a` to `b` exactly when the
   * compressed graph leads from the first sync event at or after `a` to the last one at or before `b`.
   */
  lemma CompressionExact(p: Program, S: set<Arc>, syncs: map<nat, seq<Pid>>, a: Pid, b: Pid, s: Option<Pid>, d: Option<Pid>)
    requires SyncsOk(p, S) && SyncLists(Endpoints(S), syncs) && p.IsEvent(a) && p.IsEvent(b) && a.tid != b.tid
    requires IsNext(Endpoints(S), a, s) && IsPrev(Endpoints(S), b, d)
    ensures Leads(EventGraph(p, S), a, b) <==> s.Some? && d.Some? && Leads(SyncGraph(S), s.value, d.value)
  {
    hide Leads;
    if s.Some? && d.Some? && Leads(SyncGraph(S), s.value, d.value) {
      var E := EventGraph(p, S);
      CompressedLeads(p, S, s.value, d.value);
      assert p.IsEvent(s.value) && p.IsEvent(d.value);
      OrderLeads(p, S, a, s.value);
      OrderLeads(p, S, d.value, b);
      LeadsTrans(E, a, s.value, d.value);
      LeadsTrans(E, a, d.value, b);
    }
    if Leads(EventGraph(p, S), a, b) {
      LeadsBridged(p, S, syncs, a, b);
      var s1, d1 :| Bridge(S, a, b, s1, d1);
      SyncsOrdered(S, syncs, s.value, s1);
      SyncsOrdered(S, syncs, d1, d.value);
      LeadsTrans(SyncGraph(S), s.value, s1, d1);
      LeadsTrans(SyncGraph(S), s.value, d1, d.value);
    }
  }

  lemma LeadsBridged(p: Program, S: set<Arc>, syncs: map<nat, seq<Pid>>, a: Pid, b: Pid)
    requires SyncLists(Endpoints(S), syncs) && a.tid != b.tid && Leads(EventGraph(p, S), a, b)
    ensures Bridged(S, a, b)
  {
    var w :| IsWalk(EventGraph(p, S), a, w, b);
    WalkBridged(p, S, syncs, a, w, b);
  }

  lemma CompressedLeads(p: Program, S: set<Arc>, a: Pid, b: Pid)
    requires SyncsOk(p, S) && Leads(SyncGraph(S), a, b)
    ensures Leads(EventGraph(p, S), a, b)
  {
    var w :| IsWalk(SyncGraph(S), a, w, b);
    CompressedSound(p, S, a, w, b);
  }

  /** `s` is the first sync event at or after `a` on its thread, if there is one. */
  ghost predicate IsNext(X: set<Pid>, a: Pid, s: Option<Pid>) {
    match s
    case None => forall c: Pid :: c in X && c.tid == a.tid ==> c.eid < a.eid
    case Some(n) =>
      && n in X && n.tid == a.tid && a.eid <= n.eid
      && forall c: Pid :: c in X && c.tid == a.tid && a.eid <= c.eid ==> n.eid <= c.eid
  }

  /** `d` is the last sync event at or before `b` on its thread, if there is one. */
  ghost predicate IsPrev(X: set<Pid>, b: Pid, d: Option<Pid>) {
    match d
    case None => forall c: Pid :: c in X && c.tid == b.tid ==> b.eid < c.eid
    case Some(n) =>
      && n in X && n.tid == b.tid && n.eid <= b.eid
      && forall c: Pid :: c in X && c.tid == b.tid && c.eid <= b.eid ==> c.eid <= n.eid
  }
}
