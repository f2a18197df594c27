/** The basic blocks guarded by one side of a branch (src/Analysis/OpenMP/OpenMP.cpp:55-98). */
module GuardedBlocks {

  /** `cfg[b]` lists the successors of block `b`. */
  type Cfg = seq<seq<nat>>

  ghost predicate IsCfg(cfg: Cfg) {
    forall a: nat, b: nat :: Edge(cfg, a, b) ==> b < |cfg|
  }

  predicate Edge(cfg: Cfg, a: nat, b: nat) {
    a < |cfg| && b in cfg[a]
  }

  /** `b` is a successor of a block of `X`, and all its predecessors are in `X`. */
  ghost predicate Ready(cfg: Cfg, X: set<nat>, b: nat) {
    (exists a: nat :: a in X && Edge(cfg, a, b)) && forall a: nat :: Edge(cfg, a, b) ==> a in X
  }

  ghost predicate IsClosed(cfg: Cfg, target: nat, X: set<nat>) {
    target in X && forall b: nat :: Ready(cfg, X, b) ==> b in X
  }

  /** `G` is the least closed set. */
  ghost predicate IsGuarded(cfg: Cfg, target: nat, G: set<nat>) {
    IsClosed(cfg, target, G) && forall X :: IsClosed(cfg, target, X) ==> G <= X
  }

  /** How many entries of the work list are guarded already. */
  ghost function Repeats(worklist: seq<nat>, G: set<nat>): nat {
    if worklist == [] then 0 else
      Repeats(worklist[..|worklist| - 1], G) + if worklist[|worklist| - 1] in G then 1 else 0
  }

  lemma {:induction false} RepeatsAppend(worklist: seq<nat>, news: seq<nat>, G: set<nat>)
    requires forall b :: b in news ==> b !in G
    ensures Repeats(worklist + news, G) == Repeats(worklist, G)
    decreases |news|
  {
    if news == [] {
      assert worklist + news == worklist;
    } else {
      var last := |news| - 1;
      assert (worklist + news)[..|worklist + news| - 1] == worklist + news[..last];
      assert (worklist + news)[|worklist + news| - 1] == news[last];
      RepeatsAppend(worklist, news[..last], G);
    }
  }

  /** Push the successors that have not been visited. */
  method PushUnvisited(worklist: seq<nat>, succs: seq<nat>, visited: set<nat>) returns (r: seq<nat>)
    ensures forall b :: b in r <==> b in worklist || (b in succs && b !in visited)
    ensures exists news :: r == worklist + news && forall b :: b in news ==> b !in visited
  {
    ghost var news := [];
    r := worklist;
    var k := 0;
    while k < |succs|
      invariant k <= |succs| && r == worklist + news
      invariant forall b :: b in news <==> b in succs[..k] && b !in visited
    {
      if succs[k] !in visited {
        r := r + [succs[k]];
        news := news + [succs[k]];
      }
      k := k + 1;
    }
    assert succs[..k] == succs;
  }

  /** What the loop keeps: every closed set contains what is guarded, and what is ready is still queued. */
  ghost predicate Progress(cfg: Cfg, target: nat, G: set<nat>, worklist: seq<nat>) {
    && target in G && (forall b :: b in G ==> b < |cfg|)
    && (forall X :: IsClosed(cfg, target, X) ==> G <= X)
    && (forall b :: b in worklist ==> exists a: nat :: a in G && Edge(cfg, a, b))
    && (forall b: nat :: Ready(cfg, G, b) ==> b in G || b in worklist)
  }

  /** A block all of whose predecessors are guarded joins the guarded blocks; only its successors can become ready. */
  lemma GuardOne(cfg: Cfg, target: nat, G: set<nat>, worklist: seq<nat>, b: nat, worklist2: seq<nat>)
    requires IsCfg(cfg) && Progress(cfg, target, G, worklist + [b]) && b < |cfg|
    requires forall a: nat :: Edge(cfg, a, b) ==> a in G
    requires forall c :: c in worklist2 <==> c in worklist || (c in cfg[b] && c !in G + {b})
    ensures Progress(cfg, target, G + {b}, worklist2)
  {
    var wl, G2 := worklist + [b], G + {b};
    assert b in wl && forall c :: c in worklist ==> c in wl;
    assert Ready(cfg, G, b);
    forall X | IsClosed(cfg, target, X)
      ensures G2 <= X
    {
      assert Ready(cfg, X, b);
    }
    forall c | c in worklist2
      ensures exists a: nat :: a in G2 && Edge(cfg, a, c)
    {
      if c in worklist {
        var a :| a in G && Edge(cfg, a, c);
        assert a in G2;
      } else {
        assert Edge(cfg, b, c);
      }
    }
    forall c | Ready(cfg, G2, c)
      ensures c in G2 || c in worklist2
    {
      if !Edge(cfg, b, c) {
        assert Ready(cfg, G, c);
      }
    }
  }

  /** A block with an unguarded predecessor is not ready and may be dropped from the work list. */
  lemma DropOne(cfg: Cfg, target: nat, G: set<nat>, worklist: seq<nat>, b: nat, a: nat)
    requires Progress(cfg, target, G, worklist + [b]) && Edge(cfg, a, b) && a !in G
    ensures Progress(cfg, target, G, worklist)
  {
    assert !Ready(cfg, G, b);
    assert forall c :: c in worklist ==> c in worklist + [b];
  }

  /** The rest of one round, for a block all of whose predecessors are guarded. */
  method Guard(cfg: Cfg, ghost target: nat, guarded: set<nat>, rest: seq<nat>, current: nat) returns (guarded': set<nat>, worklist: seq<nat>)
    requires IsCfg(cfg) && Progress(cfg, target, guarded, rest + [current]) && current < |cfg|
    requires forall a: nat :: Edge(cfg, a, current) ==> a in guarded
    ensures guarded' == guarded + {current} && Progress(cfg, target, guarded', worklist)
    ensures current in guarded ==> Repeats(worklist, guarded') < Repeats(rest + [current], guarded)
  {
    guarded' := guarded + {current};
    worklist := PushUnvisited(rest, cfg[current], guarded');
    ghost var news :| worklist == rest + news && forall b :: b in news ==> b !in guarded';
    GuardOne(cfg, target, guarded, rest, current, worklist);
    hide Progress, IsCfg;
    if current in guarded {
      assert guarded' == guarded;
      RepeatsAppend(rest, news, guarded);
      assert (rest + [current])[..|rest + [current]| - 1] == rest;
    }
  }

  /**
   * `getGuardedBlocks`, for a target that has a successor: the first round takes a block without looking
   * whether there is one. The blocks visited are always the guarded ones, so they are kept only once here.
   */
  method GetGuardedBlocks(cfg: Cfg, target: nat) returns (guarded: set<nat>)
    requires IsCfg(cfg) && target < |cfg| && cfg[target] != []
    ensures IsGuarded(cfg, target, guarded)
  {
    guarded := {target};
    var worklist: seq<nat> := cfg[target];
    assert forall b :: b in worklist ==> Edge(cfg, target, b);
    assert Progress(cfg, target, guarded, worklist);
    ProgressBound(cfg, target, guarded, worklist);
    hide Progress, IsCfg, Repeats;
    var first := true;
    while first || worklist != []
      invariant Progress(cfg, target, guarded, worklist) && |guarded| <= |cfg|
      invariant first ==> worklist != []
      decreases |cfg| - |guarded|, Repeats(worklist, guarded), |worklist|
    {
      first := false;
      ghost var before := worklist;
      var current := worklist[|worklist| - 1];
      worklist := worklist[..|worklist| - 1];
      assert before == worklist + [current];
      QueuedBlock(cfg, target, guarded, before, current);
      var unguarded := exists a: nat | a < |cfg| :: Edge(cfg, a, current) && a !in guarded;
      if unguarded {
        var a: nat :| a < |cfg| && Edge(cfg, a, current) && a !in guarded;
        DropOne(cfg, target, guarded, worklist, current, a);
        RepeatsPop(worklist, current, guarded);
      } else {
        ghost var was := guarded;
        guarded, worklist := Guard(cfg, target, guarded, worklist, current);
        ProgressBound(cfg, target, guarded, worklist);
        assert current in was ==> guarded == was;
        assert current !in was ==> |guarded| == |was| + 1;
      }
    }
    ProgressDone(cfg, target, guarded);
  }

  lemma RepeatsPop(worklist: seq<nat>, b: nat, G: set<nat>)
    ensures Repeats(worklist, G) <= Repeats(worklist + [b], G)
  {
    assert (worklist + [b])[..|worklist + [b]| - 1] == worklist;
  }

  lemma {:induction false} Bounded(G: set<nat>, n: nat)
    requires forall b :: b in G ==> b < n
    ensures |G| <= n
  {
    if n == 0 {
      assert G == {};
    } else {
      Bounded(G - {n - 1}, n - 1);
    }
  }

  lemma ProgressBound(cfg: Cfg, target: nat, G: set<nat>, worklist: seq<nat>)
    requires Progress(cfg, target, G, worklist)
    ensures |G| <= |cfg|
  {
    Bounded(G, |cfg|);
  }

  lemma QueuedBlock(cfg: Cfg, target: nat, G: set<nat>, worklist: seq<nat>, b: nat)
    requires IsCfg(cfg) && Progress(cfg, target, G, worklist) && b in worklist
    ensures b < |cfg|
  {
  }

  lemma ProgressDone(cfg: Cfg, target: nat, G: set<nat>)
    requires Progress(cfg, target, G, [])
    ensures IsGuarded(cfg, target, G)
  {
  }

  /** Except for the target, a guarded block is only entered from guarded blocks. */
  lemma GuardedEntry(cfg: Cfg, target: nat, G: set<nat>, a: nat, b: nat)
    requires IsGuarded(cfg, target, G) && b in G && b != target && Edge(cfg, a, b)
    ensures a in G
  {
    if a !in G {
      var X := G - {b};
      forall c | Ready(cfg, X, c)
        ensures c in X
      {
        assert Ready(cfg, G, c) by {
          var d :| d in X && Edge(cfg, d, c);
          assert d in G;
        }
      }
      assert IsClosed(cfg, target, X);
    }
  }

  /** `p` lists the blocks after `a` on a path to `b`. */
  ghost predicate IsPath(cfg: Cfg, a: nat, p: seq<nat>, b: nat)
    decreases |p|
  {
    if p == [] then a == b else Edge(cfg, a, p[0]) && IsPath(cfg, p[0], p[1..], b)
  }

  /** Every path from outside to a guarded block goes through the target. */
  lemma {:induction false} PathsEnterAtTarget(cfg: Cfg, target: nat, G: set<nat>, a: nat, p: seq<nat>, b: nat)
    requires IsGuarded(cfg, target, G) && IsPath(cfg, a, p, b) && a !in G && b in G
    ensures target in p
    decreases |p|
  {
    if p[0] in G {
      if p[0] != target {
        GuardedEntry(cfg, target, G, a, p[0]);
      }
    } else {
      PathsEnterAtTarget(cfg, target, G, p[0], p[1..], b);
    }
  }
}
