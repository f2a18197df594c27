/** What is true of every recorded trace, whatever the hooks do (src/Trace/Build/TraceBuilder.cpp:58-181). */
module TraceFacts {
  import opened Options
  import opened Traces
  import opened TraceTrees
  import opened TraceSpecs

  // ---- Nothing that could race precedes the first fork --------------------------------------

  /** Events that are recorded even before the first thread is spawned. */
  predicate IsQuiet(e: Event) {
    e.EnterCall? || e.LeaveCall? || e.ExternCall? || e.Join?
  }

  /** Up to position `j` of the log a fork was created. */
  ghost predicate ForkedBy(all: seq<Thread>, log: seq<Pid>, j: int) {
    exists i :: 0 <= i <= j && i < |log| && IsForkOf(all, log[i])
  }

  /** In creation order, the first event other than calls and joins is a fork. */
  ghost predicate ForkFirst(all: seq<Thread>, log: seq<Pid>) {
    && (forall j :: 0 <= j < |log| ==> IsEventOf(all, log[j]))
    && (forall j :: 0 <= j < |log| ==> IsQuiet(all[log[j].tid].events[log[j].eid]) || ForkedBy(all, log, j))
  }

  /** The same, and the program is parallel only after a fork. */
  ghost predicate Armed(s: Recorded) {
    ForkFirst(s.all, s.log) && (s.inParallel ==> ForkedBy(s.all, s.log, |s.log|))
  }

  /** Events already logged stay what they are when threads only grow. */
  lemma ForkFirstGrows(all: seq<Thread>, all2: seq<Thread>, log: seq<Pid>, e: Pid)
    requires ForkFirst(all, log) && |all| <= |all2| && IsEventOf(all2, e)
    requires forall u :: 0 <= u < |all| ==> all[u].events <= all2[u].events
    requires IsQuiet(all2[e.tid].events[e.eid]) || IsForkOf(all2, e) || ForkedBy(all, log, |log|)
    ensures ForkFirst(all2, log + [e])
    ensures ForkedBy(all, log, |log|) || IsForkOf(all2, e) ==> ForkedBy(all2, log + [e], |log| + 1)
  {
    var log2 := log + [e];
    forall j | 0 <= j < |log|
      ensures log2[j] == log[j] && IsEventOf(all2, log[j])
      ensures all2[log[j].tid].events[log[j].eid] == all[log[j].tid].events[log[j].eid]
    {
      assert all[log[j].tid].events <= all2[log[j].tid].events;
    }
    forall j | 0 <= j <= |log| && ForkedBy(all, log, j)
      ensures ForkedBy(all2, log2, j) && ForkedBy(all2, log2, |log|) && ForkedBy(all2, log2, |log| + 1)
    {
      var i :| 0 <= i <= j && i < |log| && IsForkOf(all, log[i]);
      assert IsForkOf(all2, log2[i]);
    }
    assert log2[|log|] == e;
  }

  lemma EmitArmed(t: nat, s: Recorded, e: Event)
    requires Armed(s) && (IsQuiet(e) || s.inParallel)
    ensures Armed(Emit(t, s, e))
  {
    if t < |s.all| {
      ForkFirstGrows(s.all, Pushed(s.all, t, e), s.log, Pid(t, |s.all[t].events|));
    }
  }

  lemma {:induction false} EmitJoinsArmed(t: nat, s: Recorded, n: nat)
    requires Armed(s)
    ensures Armed(EmitJoins(t, s, n)) && EmitJoins(t, s, n).inParallel == s.inParallel
    decreases n
  {
    if n > 0 {
      EmitArmed(t, s, Join);
      EmitJoinsArmed(t, Emit(t, s, Join), n - 1);
    }
  }

  lemma HookedArmed(hooks: nat -> Visit, t: nat, s: Recorded)
    requires Armed(s)
    ensures Armed(Hooked(hooks, t, s)) && Hooked(hooks, t, s).inParallel == s.inParallel
  {
    EmitJoinsArmed(t, s.(visits := s.visits + 1), hooks(s.visits).joins);
  }

  /** Whatever is traced: no access, lock or barrier is recorded before the first fork of the program. */
  lemma {:induction false} TracedArmed(m: Module, hooks: nat -> Visit, node: Node, chain: seq<nat>, calls: seq<nat>, t: nat, s: Recorded)
    requires Armed(s)
    ensures Armed(Traced(m, hooks, node, chain, calls, t, s))
    decreases |m.Others(chain)|, |m.Others(calls)|, 2, 0
  {
    hide Armed, m.Others;
    if node.fn !in calls && node.fn < |m.summaries| {
      OthersShrink(m, calls, calls + [node.fn], node.fn);
      ArmedLocal(s, s.(ctx := node.ctx));
      TracedFromArmed(m, hooks, node, chain, calls + [node.fn], t, 0, s.(ctx := node.ctx));
    }
  }

  lemma ArmedLocal(s: Recorded, r: Recorded)
    requires Armed(s) && r.all == s.all && r.log == s.log && r.inParallel == s.inParallel
    ensures Armed(r)
  {
  }

  lemma {:induction false} TracedFromArmed(m: Module, hooks: nat -> Visit, node: Node, chain: seq<nat>, calls: seq<nat>, t: nat, i: nat, s: Recorded)
    requires node.fn < |m.summaries| && Armed(s)
    ensures Armed(TracedFrom(m, hooks, node, chain, calls, t, i, s))
    decreases |m.Others(chain)|, |m.Others(calls)|, 5, |m.summaries[node.fn]| - i
  {
    hide Armed, m.Others, TracedIR;
    if i < |m.summaries[node.fn]| {
      var ir := m.summaries[node.fn][i];
      TracedIRArmed(m, hooks, node, ir, chain, calls, t, s);
      TracedFromArmed(m, hooks, node, chain, calls, t, i + 1, TracedIR(m, hooks, node, ir, chain, calls, t, s));
    }
  }

  lemma {:induction false} TracedIRArmed(m: Module, hooks: nat -> Visit, node: Node, ir: IR, chain: seq<nat>, calls: seq<nat>, t: nat, s: Recorded)
    requires Armed(s)
    ensures Armed(TracedIR(m, hooks, node, ir, chain, calls, t, s))
    decreases |m.Others(chain)|, |m.Others(calls)|, 4, 0
  {
    hide Armed, m.Others, TracedKind, Hooked;
    var awake := s.(skipUntil := None);
    ArmedLocal(s, awake);
    HookedArmed(hooks, t, awake);
    if s.inParallel || ir.kind == ForkIR || ir.kind == CallIR {
      TracedKindArmed(m, hooks, node, ir, chain, calls, t, Hooked(hooks, t, awake));
    }
  }

  lemma {:induction false} TracedKindArmed(m: Module, hooks: nat -> Visit, node: Node, ir: IR, chain: seq<nat>, calls: seq<nat>, t: nat, s: Recorded)
    requires Armed(s) && (s.inParallel || ir.kind == ForkIR || ir.kind == CallIR)
    ensures Armed(TracedKind(m, hooks, node, ir, chain, calls, t, s))
    decreases |m.Others(chain)|, |m.Others(calls)|, 3, 0
  {
    hide Armed, m.Others, Emit, Traced, TracedFork;
    match ir.kind {
      case ReadIR =>
        EmitArmed(t, s, Read(m.accessed(s.ctx, ir.inst)));
      case WriteIR =>
        EmitArmed(t, s, Write(m.accessed(s.ctx, ir.inst)));
      case ForkIR =>
        TracedForkArmed(m, hooks, ir.inst, chain, t, s);
      case JoinIR =>
        EmitArmed(t, s, Join);
      case LockIR =>
        EmitArmed(t, s, Lock(m.lock(ir.inst)));
      case UnlockIR =>
        EmitArmed(t, s, Unlock(m.lock(ir.inst)));
      case BarrierIR =>
        EmitArmed(t, s, Barrier(ir.inst));
      case CallIR =>
        EmitArmed(t, s, ExternCall(ir.inst));
        var callee := m.callee(node.ctx, ir.inst);
        if callee.Direct? {
          EmitArmed(t, s, EnterCall(ir.inst));
          var entered := Emit(t, s, EnterCall(ir.inst));
          TracedArmed(m, hooks, callee.node, chain, calls, t, entered);
          EmitArmed(t, Traced(m, hooks, callee.node, chain, calls, t, entered), LeaveCall(ir.inst));
        }
    }
  }

  lemma {:induction false} TracedForkArmed(m: Module, hooks: nat -> Visit, inst: nat, chain: seq<nat>, t: nat, s: Recorded)
    requires Armed(s)
    ensures Armed(TracedFork(m, hooks, inst, chain, t, s))
    decreases |m.Others(chain)|, 0, 1, 0
  {
    var entry := m.entry(s.ctx, inst);
    if entry.fn !in chain && entry.fn < |m.summaries| && t < |s.all| {
      var fork, pid := Fork(inst, entry.fn), Pid(t, |s.all[t].events|);
      var start := Recorded(true, s.visits, Forked(s.all, t, fork), s.log + [pid], None, 0);
      ForkFirstGrows(s.all, start.all, s.log, pid);
      assert Armed(start);
      hide Armed, m.Others, Traced;
      OthersShrink(m, chain, [entry.fn] + chain, entry.fn);
      TracedArmed(m, hooks, entry, [entry.fn] + chain, [], |s.all|, start);
      var end := Traced(m, hooks, entry, [entry.fn] + chain, [], |s.all|, start);
      ArmedLocal(end, end.(skipUntil := s.skipUntil, ctx := s.ctx));
    }
  }

  // ---- Calls are nested no deeper than there are functions ----------------------------------

  /** At no point of a list of events are more than `bound` calls open. */
  ghost predicate ShallowThread(events: seq<Event>, bound: nat) {
    forall n :: 0 <= n <= |events| && Frames(events[..n]).Some? ==> |Frames(events[..n]).value| <= bound
  }

  ghost predicate Shallow(all: seq<Thread>, bound: nat) {
    forall u :: 0 <= u < |all| ==> ShallowThread(all[u].events, bound)
  }

  /** Thread `t` has `open` calls open, and no thread ever had more than `bound`. */
  ghost predicate Depth(s: Recorded, t: nat, open: Option<seq<nat>>, bound: nat) {
    t < |s.all| && Frames(s.all[t].events) == open && Shallow(s.all, bound)
  }

  /** Only thread `t` got more events, and threads were only added. */
  ghost predicate OthersKept(s: Recorded, r: Recorded, t: nat) {
    |s.all| <= |r.all| && forall u :: 0 <= u < |s.all| && u != t ==> r.all[u] == s.all[u]
  }

  lemma KeptTrans(s: Recorded, r: Recorded, q: Recorded, t: nat)
    requires OthersKept(s, r, t) && OthersKept(r, q, t)
    ensures OthersKept(s, q, t)
  {
  }

  lemma ShallowPush(events: seq<Event>, e: Event, bound: nat)
    requires ShallowThread(events, bound) && (Frames(events + [e]).Some? ==> |Frames(events + [e]).value| <= bound)
    ensures ShallowThread(events + [e], bound)
  {
    var more := events + [e];
    forall n | 0 <= n <= |more| && Frames(more[..n]).Some?
      ensures |Frames(more[..n]).value| <= bound
    {
      if n <= |events| {
        assert more[..n] == events[..n];
      } else {
        assert more[..n] == more;
      }
    }
  }

  lemma EmitDepth(t: nat, s: Recorded, e: Event, open: seq<nat>, bound: nat)
    requires Depth(s, t, Some(open), bound)
    requires Shift(open, e).Some? ==> |Shift(open, e).value| <= bound
    ensures Depth(Emit(t, s, e), t, Shift(open, e), bound) && OthersKept(s, Emit(t, s, e), t)
  {
    var events := s.all[t].events;
    FramesAppend(events, e);
    assert ShallowThread(events, bound);
    ShallowPush(events, e, bound);
    hide Frames, Shift, ShallowThread, Shallow;
    PushedShallow(s.all, t, e, bound);
    assert Emit(t, s, e).all == Pushed(s.all, t, e);
  }

  lemma PushedShallow(all: seq<Thread>, t: nat, e: Event, bound: nat)
    requires t < |all| && Shallow(all, bound) && ShallowThread(all[t].events + [e], bound)
    ensures Shallow(Pushed(all, t, e), bound)
  {
    hide ShallowThread;
    forall u | 0 <= u < |all|
      ensures ShallowThread(Pushed(all, t, e)[u].events, bound)
    {
      assert ShallowThread(all[u].events, bound);
    }
  }

  lemma {:induction false} EmitJoinsDepth(t: nat, s: Recorded, n: nat, open: seq<nat>, bound: nat)
    requires Depth(s, t, Some(open), bound) && |open| <= bound
    ensures Depth(EmitJoins(t, s, n), t, Some(open), bound) && OthersKept(s, EmitJoins(t, s, n), t)
    decreases n
  {
    hide Depth, OthersKept, Emit;
    if n > 0 {
      EmitDepth(t, s, Join, open, bound);
      EmitJoinsDepth(t, Emit(t, s, Join), n - 1, open, bound);
      KeptTrans(s, Emit(t, s, Join), EmitJoins(t, s, n), t);
    } else {
      KeptSame(s, s, t);
    }
  }

  lemma KeptSame(s: Recorded, r: Recorded, t: nat)
    requires r.all == s.all
    ensures OthersKept(s, r, t)
    ensures forall open, bound :: Depth(s, t, open, bound) ==> Depth(r, t, open, bound)
  {
  }

  lemma HookedDepth(hooks: nat -> Visit, t: nat, s: Recorded, open: seq<nat>, bound: nat)
    requires Depth(s, t, Some(open), bound) && |open| <= bound
    ensures Depth(Hooked(hooks, t, s), t, Some(open), bound) && OthersKept(s, Hooked(hooks, t, s), t)
  {
    hide Depth, OthersKept, EmitJoins;
    var s1, visit := s.(visits := s.visits + 1), hooks(s.visits);
    KeptSame(s, s1, t);
    EmitJoinsDepth(t, s1, visit.joins, open, bound);
    var r := EmitJoins(t, s1, visit.joins);
    KeptTrans(s, s1, r, t);
    KeptSame(r, Hooked(hooks, t, s), t);
    KeptTrans(s, r, Hooked(hooks, t, s), t);
  }

  /** Distinct functions of the module: there are at most as many of them as the module has. */
  ghost predicate CallsOk(m: Module, calls: seq<nat>) {
    Distinct(calls) && forall i :: 0 <= i < |calls| ==> calls[i] < |m.summaries|
  }

  lemma {:induction false} DistinctBound(calls: seq<nat>, n: nat)
    requires Distinct(calls) && forall i :: 0 <= i < |calls| ==> calls[i] < n
    ensures |calls| <= n
    decreases n
  {
    if calls != [] {
      assert calls[0] < n;
      if k :| 0 <= k < |calls| && calls[k] == n - 1 {
        DistinctBound(calls[..k] + calls[k + 1..], n - 1);
      } else {
        DistinctBound(calls, n - 1);
      }
    }
  }

  /**
   * Whatever is traced: the calls open on the thread are the same as before, and at no point of any thread
   * are more calls open than the module has functions, because no function is traced inside itself.
   */
  lemma {:induction false} TracedDepth(m: Module, hooks: nat -> Visit, node: Node, chain: seq<nat>, calls: seq<nat>, t: nat, s: Recorded, open: seq<nat>)
    requires CallsOk(m, calls) && |open| == |calls| && Depth(s, t, Some(open), |m.summaries|)
    ensures Depth(Traced(m, hooks, node, chain, calls, t, s), t, Some(open), |m.summaries|)
    ensures OthersKept(s, Traced(m, hooks, node, chain, calls, t, s), t)
    decreases |m.Others(chain)|, |m.Others(calls)|, 2, 0
  {
    hide Depth, OthersKept, m.Others;
    KeptSame(s, s, t);
    if node.fn !in calls && node.fn < |m.summaries| {
      OthersShrink(m, calls, calls + [node.fn], node.fn);
      KeptSame(s, s.(ctx := node.ctx), t);
      TracedFromDepth(m, hooks, node, chain, calls + [node.fn], t, 0, s.(ctx := node.ctx), open);
      KeptTrans(s, s.(ctx := node.ctx), Traced(m, hooks, node, chain, calls, t, s), t);
    }
  }

  lemma {:induction false} TracedFromDepth(m: Module, hooks: nat -> Visit, node: Node, chain: seq<nat>, calls: seq<nat>, t: nat, i: nat, s: Recorded, open: seq<nat>)
    requires node.fn < |m.summaries| && CallsOk(m, calls) && |open| + 1 == |calls| && Depth(s, t, Some(open), |m.summaries|)
    ensures Depth(TracedFrom(m, hooks, node, chain, calls, t, i, s), t, Some(open), |m.summaries|)
    ensures OthersKept(s, TracedFrom(m, hooks, node, chain, calls, t, i, s), t)
    decreases |m.Others(chain)|, |m.Others(calls)|, 5, |m.summaries[node.fn]| - i
  {
    hide Depth, OthersKept, m.Others, TracedIR, CallsOk;
    KeptSame(s, s, t);
    if i < |m.summaries[node.fn]| {
      var ir := m.summaries[node.fn][i];
      var r := TracedIR(m, hooks, node, ir, chain, calls, t, s);
      TracedIRDepth(m, hooks, node, ir, chain, calls, t, s, open);
      TracedFromDepth(m, hooks, node, chain, calls, t, i + 1, r, open);
      KeptTrans(s, r, TracedFrom(m, hooks, node, chain, calls, t, i, s), t);
    }
  }

  lemma {:induction false} TracedIRDepth(m: Module, hooks: nat -> Visit, node: Node, ir: IR, chain: seq<nat>, calls: seq<nat>, t: nat, s: Recorded, open: seq<nat>)
    requires CallsOk(m, calls) && |open| + 1 == |calls| && Depth(s, t, Some(open), |m.summaries|)
    ensures Depth(TracedIR(m, hooks, node, ir, chain, calls, t, s), t, Some(open), |m.summaries|)
    ensures OthersKept(s, TracedIR(m, hooks, node, ir, chain, calls, t, s), t)
    decreases |m.Others(chain)|, |m.Others(calls)|, 4, 0
  {
    DistinctBound(calls, |m.summaries|);
    hide Depth, OthersKept, m.Others, TracedKind, Hooked, CallsOk;
    var awake := s.(skipUntil := None);
    KeptSame(s, s, t);
    KeptSame(s, awake, t);
    HookedDepth(hooks, t, awake, open, |m.summaries|);
    var hooked := Hooked(hooks, t, awake);
    KeptTrans(s, awake, hooked, t);
    TracedKindDepth(m, hooks, node, ir, chain, calls, t, hooked, open);
    KeptTrans(s, hooked, TracedKind(m, hooks, node, ir, chain, calls, t, hooked), t);
  }

  lemma {:induction false} TracedKindDepth(m: Module, hooks: nat -> Visit, node: Node, ir: IR, chain: seq<nat>, calls: seq<nat>, t: nat, s: Recorded, open: seq<nat>)
    requires CallsOk(m, calls) && |open| + 1 == |calls| && Depth(s, t, Some(open), |m.summaries|)
    ensures Depth(TracedKind(m, hooks, node, ir, chain, calls, t, s), t, Some(open), |m.summaries|)
    ensures OthersKept(s, TracedKind(m, hooks, node, ir, chain, calls, t, s), t)
    decreases |m.Others(chain)|, |m.Others(calls)|, 3, 0
  {
    DistinctBound(calls, |m.summaries|);
    hide Depth, OthersKept, m.Others, Emit, Traced, TracedFork, CallsOk;
    var bound := |m.summaries|;
    KeptSame(s, s, t);
    match ir.kind {
      case ReadIR =>
        EmitDepth(t, s, Read(m.accessed(s.ctx, ir.inst)), open, bound);
      case WriteIR =>
        EmitDepth(t, s, Write(m.accessed(s.ctx, ir.inst)), open, bound);
      case ForkIR =>
        TracedForkDepth(m, hooks, ir.inst, chain, t, s, open);
      case JoinIR =>
        EmitDepth(t, s, Join, open, bound);
      case LockIR =>
        EmitDepth(t, s, Lock(m.lock(ir.inst)), open, bound);
      case UnlockIR =>
        EmitDepth(t, s, Unlock(m.lock(ir.inst)), open, bound);
      case BarrierIR =>
        EmitDepth(t, s, Barrier(ir.inst), open, bound);
      case CallIR =>
        EmitDepth(t, s, ExternCall(ir.inst), open, bound);
        var callee := m.callee(node.ctx, ir.inst);
        if callee.Direct? {
          EmitDepth(t, s, EnterCall(ir.inst), open, bound);
          var entered := Emit(t, s, EnterCall(ir.inst));
          TracedDepth(m, hooks, callee.node, chain, calls, t, entered, open + [ir.inst]);
          var traced := Traced(m, hooks, callee.node, chain, calls, t, entered);
          EmitDepth(t, traced, LeaveCall(ir.inst), open + [ir.inst], bound);
          KeptTrans(s, entered, traced, t);
          KeptTrans(s, traced, Emit(t, traced, LeaveCall(ir.inst)), t);
        }
    }
  }

  lemma {:induction false} TracedForkDepth(m: Module, hooks: nat -> Visit, inst: nat, chain: seq<nat>, t: nat, s: Recorded, open: seq<nat>)
    requires Depth(s, t, Some(open), |m.summaries|) && |open| <= |m.summaries|
    ensures Depth(TracedFork(m, hooks, inst, chain, t, s), t, Some(open), |m.summaries|)
    ensures OthersKept(s, TracedFork(m, hooks, inst, chain, t, s), t)
    decreases |m.Others(chain)|, 0, 1, 0
  {
    var entry, bound := m.entry(s.ctx, inst), |m.summaries|;
    if entry.fn !in chain && entry.fn < |m.summaries| && t < |s.all| {
      var fork, pid := Fork(inst, entry.fn), Pid(t, |s.all[t].events|);
      var start := Recorded(true, s.visits, Forked(s.all, t, fork), s.log + [pid], None, 0);
      ForkDepth(t, s, start, fork, open, bound);
      OthersShrink(m, chain, [entry.fn] + chain, entry.fn);
      TracedDepth(m, hooks, entry, [entry.fn] + chain, [], |s.all|, start, []);
      var end := Traced(m, hooks, entry, [entry.fn] + chain, [], |s.all|, start);
      hide m.Others, Traced, Shallow, Frames;
      assert end.all[t] == start.all[t];
    }
  }

  lemma ForkDepth(t: nat, s: Recorded, start: Recorded, fork: Event, open: seq<nat>, bound: nat)
    requires Depth(s, t, Some(open), bound) && |open| <= bound && fork.Fork? && start.all == Forked(s.all, t, fork)
    ensures Depth(start, |s.all|, Some([]), bound) && Depth(start, t, Some(open), bound) && OthersKept(s, start, t)
  {
    FramesAppend(s.all[t].events, fork);
    ShallowPush(s.all[t].events, fork, bound);
    assert ShallowThread([], bound);
    hide Frames, ShallowThread;
  }
}
