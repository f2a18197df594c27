/** Which events the code of a program leaves (src/Trace/Build/TraceBuilder.cpp:93-175). */
module TraceMeanings {
  import opened Options
  import opened Traces
  import opened TraceTrees
  import opened TraceSpecs
  import opened TraceFacts

  // ---- Every event comes from code of its kind ----------------------------------------------

  ghost predicate IsCode(m: Module, kind: Kind, inst: nat) {
    exists f, i :: 0 <= f < |m.summaries| && 0 <= i < |m.summaries[f]| && m.summaries[f][i] == IR(kind, inst)
  }

  /** `e` is an event that some code of the module leaves in some context; joins may also be added by hooks. */
  ghost predicate HasSource(m: Module, e: Event) {
    match e
    case Read(mem) => exists inst, ctx :: IsCode(m, ReadIR, inst) && mem == m.accessed(ctx, inst)
    case Write(mem) => exists inst, ctx :: IsCode(m, WriteIR, inst) && mem == m.accessed(ctx, inst)
    case Fork(site, entry) => IsCode(m, ForkIR, site) && exists ctx :: m.entry(ctx, site).fn == entry
    case Join => true
    case Lock(l) => exists inst :: IsCode(m, LockIR, inst) && l == m.lock(inst)
    case Unlock(l) => exists inst :: IsCode(m, UnlockIR, inst) && l == m.lock(inst)
    case Barrier(inst) => IsCode(m, BarrierIR, inst)
    case EnterCall(site) => IsCode(m, CallIR, site) && exists ctx :: m.callee(ctx, site).Direct?
    case LeaveCall(site) => IsCode(m, CallIR, site) && exists ctx :: m.callee(ctx, site).Direct?
    case ExternCall(site) => IsCode(m, CallIR, site) && exists ctx :: m.callee(ctx, site).External?
  }

  ghost predicate Sourced(m: Module, s: Recorded) {
    forall t, i :: 0 <= t < |s.all| && 0 <= i < |s.all[t].events| ==> HasSource(m, s.all[t].events[i])
  }

  lemma EmitSourced(m: Module, t: nat, s: Recorded, e: Event)
    requires Sourced(m, s) && HasSource(m, e)
    ensures Sourced(m, Emit(t, s, e))
  {
    hide HasSource;
  }

  lemma {:induction false} EmitJoinsSourced(m: Module, t: nat, s: Recorded, n: nat)
    requires Sourced(m, s)
    ensures Sourced(m, EmitJoins(t, s, n))
    decreases n
  {
    if n > 0 {
      EmitSourced(m, t, s, Join);
      hide Sourced, Emit;
      EmitJoinsSourced(m, t, Emit(t, s, Join), n - 1);
    }
  }

  lemma SourcedLocal(m: Module, s: Recorded, r: Recorded)
    requires Sourced(m, s) && r.all == s.all
    ensures Sourced(m, r)
  {
  }

  lemma HookedSourced(m: Module, hooks: nat -> Visit, t: nat, s: Recorded)
    requires Sourced(m, s)
    ensures Sourced(m, Hooked(hooks, t, s))
  {
    var s1, visit := s.(visits := s.visits + 1), hooks(s.visits);
    SourcedLocal(m, s, s1);
    EmitJoinsSourced(m, t, s1, visit.joins);
    hide Sourced, EmitJoins;
    SourcedLocal(m, EmitJoins(t, s1, visit.joins), Hooked(hooks, t, s));
  }

  /** Whatever the hooks do, every recorded event comes from code of its kind. */
  lemma {:induction false} TracedSourced(m: Module, hooks: nat -> Visit, node: Node, chain: seq<nat>, calls: seq<nat>, t: nat, s: Recorded)
    requires Sourced(m, s)
    ensures Sourced(m, Traced(m, hooks, node, chain, calls, t, s))
    decreases |m.Others(chain)|, |m.Others(calls)|, 2, 0
  {
    if node.fn !in calls && node.fn < |m.summaries| {
      OthersShrink(m, calls, calls + [node.fn], node.fn);
      SourcedLocal(m, s, s.(ctx := node.ctx));
      hide Sourced, m.Others;
      TracedFromSourced(m, hooks, node, chain, calls + [node.fn], t, 0, s.(ctx := node.ctx));
    }
  }

  lemma {:induction false} TracedFromSourced(m: Module, hooks: nat -> Visit, node: Node, chain: seq<nat>, calls: seq<nat>, t: nat, i: nat, s: Recorded)
    requires node.fn < |m.summaries| && Sourced(m, s)
    ensures Sourced(m, TracedFrom(m, hooks, node, chain, calls, t, i, s))
    decreases |m.Others(chain)|, |m.Others(calls)|, 5, |m.summaries[node.fn]| - i
  {
    hide Sourced, m.Others, TracedIR;
    if i < |m.summaries[node.fn]| {
      var ir := m.summaries[node.fn][i];
      assert ir == IR(ir.kind, ir.inst);
      assert IsCode(m, ir.kind, ir.inst);
      TracedIRSourced(m, hooks, node, ir, chain, calls, t, s);
      TracedFromSourced(m, hooks, node, chain, calls, t, i + 1, TracedIR(m, hooks, node, ir, chain, calls, t, s));
    }
  }

  lemma {:induction false} TracedIRSourced(m: Module, hooks: nat -> Visit, node: Node, ir: IR, chain: seq<nat>, calls: seq<nat>, t: nat, s: Recorded)
    requires Sourced(m, s) && IsCode(m, ir.kind, ir.inst)
    ensures Sourced(m, TracedIR(m, hooks, node, ir, chain, calls, t, s))
    decreases |m.Others(chain)|, |m.Others(calls)|, 4, 0
  {
    hide Sourced, m.Others, TracedKind, Hooked, IsCode;
    var awake := s.(skipUntil := None);
    SourcedLocal(m, s, awake);
    HookedSourced(m, hooks, t, awake);
    TracedKindSourced(m, hooks, node, ir, chain, calls, t, Hooked(hooks, t, awake));
  }

  lemma {:induction false} TracedKindSourced(m: Module, hooks: nat -> Visit, node: Node, ir: IR, chain: seq<nat>, calls: seq<nat>, t: nat, s: Recorded)
    requires Sourced(m, s) && IsCode(m, ir.kind, ir.inst)
    ensures Sourced(m, TracedKind(m, hooks, node, ir, chain, calls, t, s))
    decreases |m.Others(chain)|, |m.Others(calls)|, 3, 0
  {
    hide Sourced, m.Others, Emit, Traced, TracedFork, IsCode;
    match ir.kind {
      case ReadIR =>
        EmitSourced(m, t, s, Read(m.accessed(s.ctx, ir.inst)));
      case WriteIR =>
        EmitSourced(m, t, s, Write(m.accessed(s.ctx, ir.inst)));
      case ForkIR =>
        TracedForkSourced(m, hooks, ir.inst, chain, t, s);
      case JoinIR =>
        EmitSourced(m, t, s, Join);
      case LockIR =>
        EmitSourced(m, t, s, Lock(m.lock(ir.inst)));
      case UnlockIR =>
        EmitSourced(m, t, s, Unlock(m.lock(ir.inst)));
      case BarrierIR =>
        EmitSourced(m, t, s, Barrier(ir.inst));
      case CallIR =>
        match m.callee(node.ctx, ir.inst) {
          case Unresolved =>
          case External =>
            EmitSourced(m, t, s, ExternCall(ir.inst));
          case Direct(target) =>
            EmitSourced(m, t, s, EnterCall(ir.inst));
            var entered := Emit(t, s, EnterCall(ir.inst));
            TracedSourced(m, hooks, target, chain, calls, t, entered);
            EmitSourced(m, t, Traced(m, hooks, target, chain, calls, t, entered), LeaveCall(ir.inst));
        }
    }
  }

  lemma {:induction false} TracedForkSourced(m: Module, hooks: nat -> Visit, inst: nat, chain: seq<nat>, t: nat, s: Recorded)
    requires Sourced(m, s) && IsCode(m, ForkIR, inst)
    ensures Sourced(m, TracedFork(m, hooks, inst, chain, t, s))
    decreases |m.Others(chain)|, 0, 1, 0
  {
    var entry := m.entry(s.ctx, inst);
    if entry.fn !in chain && entry.fn < |m.summaries| && t < |s.all| {
      var fork, pid := Fork(inst, entry.fn), Pid(t, |s.all[t].events|);
      var start := Recorded(true, s.visits, Forked(s.all, t, fork), s.log + [pid], None, 0);
      assert HasSource(m, fork);
      ForkedSourced(m, t, s, start, fork);
      hide Sourced, m.Others, Traced, Forked, HasSource;
      OthersShrink(m, chain, [entry.fn] + chain, entry.fn);
      TracedSourced(m, hooks, entry, [entry.fn] + chain, [], |s.all|, start);
      var end := Traced(m, hooks, entry, [entry.fn] + chain, [], |s.all|, start);
      SourcedLocal(m, end, end.(skipUntil := s.skipUntil, ctx := s.ctx));
    }
  }

  lemma ForkedSourced(m: Module, t: nat, s: Recorded, start: Recorded, fork: Event)
    requires Sourced(m, s) && t < |s.all| && HasSource(m, fork) && start.all == Forked(s.all, t, fork)
    ensures Sourced(m, start)
  {
    hide HasSource;
  }

  // ---- Without hooks, the events of a thread are its code, calls expanded --------------------

  /** The hooks do nothing. */
  ghost predicate Silent(hooks: nat -> Visit) {
    forall n :: hooks(n) == Visit(false, 0, None)
  }

  /** The event that code other than calls and forks stands for. */
  function EventOf(m: Module, ctx: nat, ir: IR): Event
    requires ir.kind != ForkIR && ir.kind != CallIR
  {
    match ir.kind
    case ReadIR => Read(m.accessed(ctx, ir.inst))
    case WriteIR => Write(m.accessed(ctx, ir.inst))
    case JoinIR => Join
    case LockIR => Lock(m.lock(ir.inst))
    case UnlockIR => Unlock(m.lock(ir.inst))
    case BarrierIR => Barrier(ir.inst)
  }

  /** What a piece of code leaves on its own thread, the context it leaves behind, and whether threads have been spawned by then. */
  datatype Left = Left(events: seq<Event>, ctx: nat, parallel: bool) {
    ghost function Then(next: Left): Left {
      Left(events + next.events, next.ctx, next.parallel)
    }
  }

  /** The code of a function, with the code of its callees in place; a function on the call stack is not entered again. */
  ghost function Inlined(m: Module, chain: seq<nat>, node: Node, calls: seq<nat>, parallel: bool, ctx: nat): Left
    decreases |m.Others(calls)|, 2, 0
  {
    if node.fn in calls || node.fn >= |m.summaries| then Left([], ctx, parallel) else
      OthersShrink(m, calls, calls + [node.fn], node.fn);
      InlinedFrom(m, chain, node, calls + [node.fn], 0, parallel, node.ctx)
  }

  ghost function InlinedFrom(m: Module, chain: seq<nat>, node: Node, calls: seq<nat>, i: nat, parallel: bool, ctx: nat): Left
    requires node.fn < |m.summaries|
    decreases |m.Others(calls)|, 4, |m.summaries[node.fn]| - i
  {
    if i >= |m.summaries[node.fn]| then Left([], ctx, parallel) else
      var first := InlinedIR(m, chain, node, calls, m.summaries[node.fn][i], parallel, ctx);
      first.Then(InlinedFrom(m, chain, node, calls, i + 1, first.parallel, first.ctx))
  }

  ghost function InlinedIR(m: Module, chain: seq<nat>, node: Node, calls: seq<nat>, ir: IR, parallel: bool, ctx: nat): Left
    decreases |m.Others(calls)|, 3, 0
  {
    match ir.kind
    case ForkIR =>
      var entry := m.entry(ctx, ir.inst).fn;
      if entry in chain || entry >= |m.summaries| then Left([], ctx, parallel) else Left([Fork(ir.inst, entry)], ctx, true)
    case CallIR =>
      (match m.callee(node.ctx, ir.inst)
       case Unresolved => Left([], ctx, parallel)
       case External => Left([ExternCall(ir.inst)], ctx, parallel)
       case Direct(target) =>
         var body := Inlined(m, chain, target, calls, parallel, ctx);
         Left([EnterCall(ir.inst)] + body.events + [LeaveCall(ir.inst)], body.ctx, body.parallel))
    case _ => Left(if parallel then [EventOf(m, ctx, ir)] else [], ctx, parallel)
  }

  /** The entry functions along the spawns that led to thread `c`. */
  ghost function ChainOf(all: seq<Thread>, c: nat): seq<nat> {
    if c < |all| && all[c].spawn.Some? && all[c].spawn.value.tid < c && IsForkOf(all, all[c].spawn.value) then
      var e := all[c].spawn.value;
      [all[e.tid].events[e.eid].entry] + ChainOf(all, e.tid)
    else []
  }

  /** Thread `c` holds the code of the function its fork names, with callees in place. */
  ghost predicate IsSpelled(m: Module, all: seq<Thread>, c: nat) {
    && c < |all| && all[c].spawn.Some? && all[c].spawn.value.tid < c && IsForkOf(all, all[c].spawn.value)
    && exists ctx: nat :: SpelledBy(m, all, c, all[all[c].spawn.value.tid].events[all[c].spawn.value.eid], ctx)
  }

  ghost predicate SpelledBy(m: Module, all: seq<Thread>, c: nat, fork: Event, ctx: nat)
    requires fork.Fork? && c < |all|
  {
    m.entry(ctx, fork.site).fn == fork.entry && all[c].events == Inlined(m, ChainOf(all, c), m.entry(ctx, fork.site), [], true, 0).events
  }

  ghost predicate AllSpelled(m: Module, all: seq<Thread>, from: nat) {
    forall c: nat :: from <= c < |all| ==> IsSpelled(m, all, c)
  }

  /** Threads only get more events, and only more threads are there. */
  ghost predicate Grows(all: seq<Thread>, all2: seq<Thread>) {
    |all| <= |all2| && forall u :: 0 <= u < |all| ==> all[u].spawn == all2[u].spawn && all[u].events <= all2[u].events
  }

  lemma {:induction false} ChainGrows(all: seq<Thread>, all2: seq<Thread>, c: nat)
    requires Grows(all, all2) && ChainReal(all, c)
    ensures ChainOf(all2, c) == ChainOf(all, c)
  {
    if all[c].spawn.Some? {
      ChainGrows(all, all2, all[c].spawn.value.tid);
    }
  }

  /** The spawns that led to thread `c` are fork events of earlier threads. */
  ghost predicate ChainReal(all: seq<Thread>, c: nat) {
    && c < |all|
    && (all[c].spawn.Some? ==> all[c].spawn.value.tid < c && IsForkOf(all, all[c].spawn.value) && ChainReal(all, all[c].spawn.value.tid))
  }

  lemma {:induction false} RealGrows(all: seq<Thread>, all2: seq<Thread>, c: nat)
    requires Grows(all, all2) && ChainReal(all, c)
    ensures ChainReal(all2, c)
  {
    if all[c].spawn.Some? {
      RealGrows(all, all2, all[c].spawn.value.tid);
    }
  }

  lemma SpelledGrows(m: Module, all: seq<Thread>, all2: seq<Thread>, c: nat)
    requires Grows(all, all2) && IsSpelled(m, all, c) && ChainReal(all, c) && all2[c] == all[c]
    ensures IsSpelled(m, all2, c)
  {
    ChainGrows(all, all2, c);
    hide ChainReal, ChainOf, Inlined;
    var e := all[c].spawn.value;
    var ctx: nat :| SpelledBy(m, all, c, all[e.tid].events[e.eid], ctx);
    assert all2[e.tid].events[e.eid] == all[e.tid].events[e.eid];
    assert SpelledBy(m, all2, c, all2[e.tid].events[e.eid], ctx);
  }

  /** From `s` to `r`, thread `t` got what `left` says, and every thread that was added is finished and spelled out. */
  ghost predicate Done(m: Module, s: Recorded, r: Recorded, t: nat, left: Left) {
    && t < |s.all| && OthersKept(s, r, t) && r.all[t] == Thread(s.all[t].spawn, s.all[t].events + left.events)
    && r.ctx == left.ctx && r.inParallel == left.parallel && r.skipUntil == None && (s.inParallel ==> r.inParallel)
    && (forall c: nat :: |s.all| <= c < |r.all| ==> IsSpelled(m, r.all, c) && ChainReal(r.all, c))
  }

  lemma DoneGrows(m: Module, s: Recorded, r: Recorded, t: nat, left: Left)
    requires Done(m, s, r, t, left)
    ensures Grows(s.all, r.all)
  {
    hide IsSpelled, ChainReal;
  }

  /** One piece of code after another. */
  lemma DoneThen(m: Module, s: Recorded, r: Recorded, q: Recorded, t: nat, one: Left, two: Left)
    requires Done(m, s, r, t, one) && Done(m, r, q, t, two)
    ensures Done(m, s, q, t, one.Then(two))
  {
    DoneGrows(m, r, q, t, two);
    forall c: nat | |s.all| <= c < |r.all|
      ensures IsSpelled(m, q.all, c) && ChainReal(q.all, c)
    {
      SpelledGrows(m, r.all, q.all, c);
      RealGrows(r.all, q.all, c);
    }
    hide IsSpelled, ChainReal;
    assert s.all[t].events + one.events + two.events == s.all[t].events + (one.events + two.events);
  }

  lemma EmitDone(m: Module, t: nat, s: Recorded, e: Event)
    requires t < |s.all| && s.skipUntil == None
    ensures Done(m, s, Emit(t, s, e), t, Left([e], s.ctx, s.inParallel))
  {
    hide IsSpelled, ChainReal;
  }

  lemma NothingDone(m: Module, t: nat, s: Recorded, r: Recorded)
    requires t < |s.all| && s.skipUntil == None && r.all == s.all && r.skipUntil == None && r.inParallel == s.inParallel
    ensures Done(m, s, r, t, Left([], r.ctx, s.inParallel))
  {
    hide IsSpelled, ChainReal;
  }

  /** With hooks that do nothing, what is traced is the code of the function with its callees in place, on this thread and on every thread it spawns. */
  lemma {:induction false} TracedInlined(m: Module, hooks: nat -> Visit, node: Node, chain: seq<nat>, calls: seq<nat>, t: nat, s: Recorded)
    requires Silent(hooks) && s.skipUntil == None && ChainReal(s.all, t) && ChainOf(s.all, t) == chain
    ensures Done(m, s, Traced(m, hooks, node, chain, calls, t, s), t, Inlined(m, chain, node, calls, s.inParallel, s.ctx))
    decreases |m.Others(chain)|, |m.Others(calls)|, 2, 0
  {
    hide Done, m.Others, ChainOf, Silent;
    NothingDone(m, t, s, s);
    if node.fn !in calls && node.fn < |m.summaries| {
      OthersShrink(m, calls, calls + [node.fn], node.fn);
      var s1 := s.(ctx := node.ctx);
      NothingDone(m, t, s, s1);
      TracedFromInlined(m, hooks, node, chain, calls + [node.fn], t, 0, s1);
      var rest := InlinedFrom(m, chain, node, calls + [node.fn], 0, s.inParallel, node.ctx);
      DoneThen(m, s, s1, Traced(m, hooks, node, chain, calls, t, s), t, Left([], node.ctx, s.inParallel), rest);
      assert Left([], node.ctx, s.inParallel).Then(rest) == rest;
    }
  }

  lemma {:induction false} TracedFromInlined(m: Module, hooks: nat -> Visit, node: Node, chain: seq<nat>, calls: seq<nat>, t: nat, i: nat, s: Recorded)
    requires Silent(hooks) && s.skipUntil == None && ChainReal(s.all, t) && ChainOf(s.all, t) == chain && node.fn < |m.summaries|
    ensures Done(m, s, TracedFrom(m, hooks, node, chain, calls, t, i, s), t, InlinedFrom(m, chain, node, calls, i, s.inParallel, s.ctx))
    decreases |m.Others(chain)|, |m.Others(calls)|, 5, |m.summaries[node.fn]| - i
  {
    hide m.Others, ChainOf, ChainReal, Silent, TracedIR, InlinedIR, Done;
    if i >= |m.summaries[node.fn]| {
      RealBound(s.all, t);
      NothingDone(m, t, s, s);
    } else {
      var ir := m.summaries[node.fn][i];
      TracedIRInlined(m, hooks, node, ir, chain, calls, t, s);
      var r, first := TracedIR(m, hooks, node, ir, chain, calls, t, s), InlinedIR(m, chain, node, calls, ir, s.inParallel, s.ctx);
      DoneState(m, s, r, t, first);
      TracedFromInlined(m, hooks, node, chain, calls, t, i + 1, r);
      DoneThen(m, s, r, TracedFrom(m, hooks, node, chain, calls, t, i + 1, r), t, first, InlinedFrom(m, chain, node, calls, i + 1, first.parallel, first.ctx));
    }
  }

  lemma RealBound(all: seq<Thread>, t: nat)
    requires ChainReal(all, t)
    ensures t < |all|
  {
  }

  /** What can be said of the state afterwards, so that the next piece of code can follow. */
  lemma DoneState(m: Module, s: Recorded, r: Recorded, t: nat, left: Left)
    requires Done(m, s, r, t, left) && ChainReal(s.all, t)
    ensures r.skipUntil == None && r.ctx == left.ctx && r.inParallel == left.parallel && t < |r.all|
    ensures ChainReal(r.all, t) && ChainOf(r.all, t) == ChainOf(s.all, t)
  {
    DoneGrows(m, s, r, t, left);
    RealGrows(s.all, r.all, t);
    ChainGrows(s.all, r.all, t);
  }

  lemma SilentHooked(hooks: nat -> Visit, t: nat, s: Recorded)
    requires Silent(hooks)
    ensures Hooked(hooks, t, s) == s.(visits := s.visits + 1) && !hooks(s.visits).skip
  {
    assert hooks(s.visits) == Visit(false, 0, None);
  }

  lemma {:induction false} TracedIRInlined(m: Module, hooks: nat -> Visit, node: Node, ir: IR, chain: seq<nat>, calls: seq<nat>, t: nat, s: Recorded)
    requires Silent(hooks) && s.skipUntil == None && ChainReal(s.all, t) && ChainOf(s.all, t) == chain
    ensures Done(m, s, TracedIR(m, hooks, node, ir, chain, calls, t, s), t, InlinedIR(m, chain, node, calls, ir, s.inParallel, s.ctx))
    decreases |m.Others(chain)|, |m.Others(calls)|, 4, 0
  {
    RealBound(s.all, t);
    hide m.Others, ChainOf, ChainReal, Silent, TracedKind, Done, Hooked, Inlined, InlinedIR;
    SilentHooked(hooks, t, s);
    NothingDone(m, t, s, s);
    assert s.(skipUntil := None) == s;
    if !s.inParallel && ir.kind != ForkIR && ir.kind != CallIR {
      InlinedQuiet(m, chain, node, calls, ir, s.ctx);
    } else {
      var hooked := Hooked(hooks, t, s);
      NothingDone(m, t, s, hooked);
      var inlined := InlinedIR(m, chain, node, calls, ir, s.inParallel, s.ctx);
      TracedKindInlined(m, hooks, node, ir, chain, calls, t, hooked);
      DoneThen(m, s, hooked, TracedKind(m, hooks, node, ir, chain, calls, t, hooked), t, Left([], s.ctx, s.inParallel), inlined);
      assert Left([], s.ctx, s.inParallel).Then(inlined) == inlined;
    }
  }

  lemma InlinedQuiet(m: Module, chain: seq<nat>, node: Node, calls: seq<nat>, ir: IR, ctx: nat)
    requires ir.kind != ForkIR && ir.kind != CallIR
    ensures InlinedIR(m, chain, node, calls, ir, false, ctx) == Left([], ctx, false)
  {
  }

  lemma {:induction false} TracedKindInlined(m: Module, hooks: nat -> Visit, node: Node, ir: IR, chain: seq<nat>, calls: seq<nat>, t: nat, s: Recorded)
    requires Silent(hooks) && s.skipUntil == None && ChainReal(s.all, t) && ChainOf(s.all, t) == chain
    requires s.inParallel || ir.kind == ForkIR || ir.kind == CallIR
    ensures Done(m, s, TracedKind(m, hooks, node, ir, chain, calls, t, s), t, InlinedIR(m, chain, node, calls, ir, s.inParallel, s.ctx))
    decreases |m.Others(chain)|, |m.Others(calls)|, 3, 0
  {
    RealBound(s.all, t);
    hide m.Others, ChainOf, ChainReal, Silent, Done, Emit, Traced, TracedFork, Inlined;
    match ir.kind {
      case ForkIR =>
        TracedForkInlined(m, hooks, node, ir, chain, calls, t, s);
      case CallIR =>
        TracedCallInlined(m, hooks, node, ir, chain, calls, t, s);
      case _ =>
        EmitDone(m, t, s, EventOf(m, s.ctx, ir));
    }
  }

  lemma {:induction false} TracedCallInlined(m: Module, hooks: nat -> Visit, node: Node, ir: IR, chain: seq<nat>, calls: seq<nat>, t: nat, s: Recorded)
    requires Silent(hooks) && s.skipUntil == None && ChainReal(s.all, t) && ChainOf(s.all, t) == chain && ir.kind == CallIR
    ensures Done(m, s, TracedKind(m, hooks, node, ir, chain, calls, t, s), t, InlinedIR(m, chain, node, calls, ir, s.inParallel, s.ctx))
    decreases |m.Others(chain)|, |m.Others(calls)|, 2, 1
  {
    RealBound(s.all, t);
    hide m.Others, ChainOf, ChainReal, Silent, Done, Emit, Traced, Inlined;
    match m.callee(node.ctx, ir.inst) {
      case Unresolved =>
        NothingDone(m, t, s, s);
      case External =>
        EmitDone(m, t, s, ExternCall(ir.inst));
      case Direct(target) =>
        var enter, leave := Left([EnterCall(ir.inst)], s.ctx, s.inParallel), LeaveCall(ir.inst);
        EmitDone(m, t, s, EnterCall(ir.inst));
        var entered := Emit(t, s, EnterCall(ir.inst));
        DoneState(m, s, entered, t, enter);
        TracedInlined(m, hooks, target, chain, calls, t, entered);
        var traced, body := Traced(m, hooks, target, chain, calls, t, entered), Inlined(m, chain, target, calls, s.inParallel, s.ctx);
        DoneState(m, entered, traced, t, body);
        EmitDone(m, t, traced, leave);
        DoneThen(m, s, entered, traced, t, enter, body);
        DoneThen(m, s, traced, Emit(t, traced, leave), t, enter.Then(body), Left([leave], body.ctx, body.parallel));
    }
  }

  lemma {:induction false} TracedForkInlined(m: Module, hooks: nat -> Visit, node: Node, ir: IR, chain: seq<nat>, calls: seq<nat>, t: nat, s: Recorded)
    requires Silent(hooks) && s.skipUntil == None && ChainReal(s.all, t) && ChainOf(s.all, t) == chain && ir.kind == ForkIR
    ensures Done(m, s, TracedFork(m, hooks, ir.inst, chain, t, s), t, InlinedIR(m, chain, node, calls, ir, s.inParallel, s.ctx))
    decreases |m.Others(chain)|, 0, 1, 0
  {
    RealBound(s.all, t);
    var entry := m.entry(s.ctx, ir.inst);
    NothingDone(m, t, s, s);
    if entry.fn !in chain && entry.fn < |m.summaries| {
      var fork, pid, c := Fork(ir.inst, entry.fn), Pid(t, |s.all[t].events|), |s.all|;
      var start := Recorded(true, s.visits, Forked(s.all, t, fork), s.log + [pid], None, 0);
      ForkedChain(s.all, t, fork);
      OthersShrink(m, chain, [entry.fn] + chain, entry.fn);
      hide m.Others, ChainOf, ChainReal, Silent, Done, Traced, Inlined, Forked;
      TracedInlined(m, hooks, entry, [entry.fn] + chain, [], c, start);
      var end := Traced(m, hooks, entry, [entry.fn] + chain, [], c, start);
      ForkedDone(m, s, start, end, t, entry, ir.inst, chain, s.skipUntil, s.ctx);
    }
  }

  lemma ForkedChain(all: seq<Thread>, t: nat, fork: Event)
    requires ChainReal(all, t) && fork.Fork?
    ensures t < |all| && ChainReal(Forked(all, t, fork), |all|) && ChainOf(Forked(all, t, fork), |all|) == [fork.entry] + ChainOf(all, t)
  {
    var all2 := Forked(all, t, fork);
    assert Grows(all, all2);
    RealGrows(all, all2, t);
    ChainGrows(all, all2, t);
    assert all2[|all|].spawn == Some(Pid(t, |all[t].events|)) && all2[t].events[|all[t].events|] == fork;
  }

  /** The child is finished: back on the parent, only the fork was added. */
  lemma ForkedDone(m: Module, s: Recorded, start: Recorded, end: Recorded, t: nat, entry: Node, inst: nat, chain: seq<nat>, skip: Option<nat>, ctx: nat)
    requires t < |s.all| && s.skipUntil == skip == None && s.ctx == ctx && entry == m.entry(ctx, inst)
    requires start.all == Forked(s.all, t, Fork(inst, entry.fn)) && start.inParallel
    requires ChainReal(start.all, |s.all|) && ChainOf(start.all, |s.all|) == [entry.fn] + chain
    requires Done(m, start, end, |s.all|, Inlined(m, [entry.fn] + chain, entry, [], true, 0))
    ensures Done(m, s, end.(skipUntil := skip, ctx := ctx), t, Left([Fork(inst, entry.fn)], ctx, true))
  {
    var c, r := |s.all|, end.(skipUntil := skip, ctx := ctx);
    var left := Inlined(m, [entry.fn] + chain, entry, [], true, 0);
    DoneState(m, start, end, c, left);
    hide Inlined, ChainOf, ChainReal;
    assert end.all[t] == start.all[t];
    assert end.all[c].events == left.events && end.all[c].spawn == Some(Pid(t, |s.all[t].events|));
    assert SpelledBy(m, end.all, c, end.all[t].events[|s.all[t].events|], ctx);
    assert IsSpelled(m, end.all, c);
  }

  /** The event has the kind of the code, and the memory, lock or barrier of its instruction. */
  ghost predicate IsEventFor(m: Module, ctx: nat, ir: IR, e: Event) {
    && (ir.kind == ReadIR <==> e.Read?) && (ir.kind == WriteIR <==> e.Write?) && (ir.kind == JoinIR <==> e.Join?)
    && (ir.kind == LockIR <==> e.Lock?) && (ir.kind == UnlockIR <==> e.Unlock?) && (ir.kind == BarrierIR <==> e.Barrier?)
    && (e.Read? || e.Write? ==> e.mem == m.accessed(ctx, ir.inst))
    && (e.Lock? || e.Unlock? ==> e.lock == m.lock(ir.inst))
    && (e.Barrier? ==> e.inst == ir.inst)
  }

  /** Code without calls and forks leaves one event for every piece of it, in order, each of its kind. */
  lemma {:induction false} StraightLine(m: Module, chain: seq<nat>, node: Node, calls: seq<nat>, i: nat, ctx: nat)
    requires node.fn < |m.summaries| && i <= |m.summaries[node.fn]|
    requires forall k :: i <= k < |m.summaries[node.fn]| ==> m.summaries[node.fn][k].kind != ForkIR && m.summaries[node.fn][k].kind != CallIR
    ensures
      var events := InlinedFrom(m, chain, node, calls, i, true, ctx).events;
      |events| == |m.summaries[node.fn]| - i && forall k :: 0 <= k < |events| ==> IsEventFor(m, ctx, m.summaries[node.fn][i + k], events[k])
    decreases |m.summaries[node.fn]| - i
  {
    var code := m.summaries[node.fn];
    if i < |code| {
      StraightLine(m, chain, node, calls, i + 1, ctx);
      var rest := InlinedFrom(m, chain, node, calls, i + 1, true, ctx).events;
      assert IsEventFor(m, ctx, code[i], EventOf(m, ctx, code[i]));
      assert InlinedFrom(m, chain, node, calls, i, true, ctx).events == [EventOf(m, ctx, code[i])] + rest;
      forall k | 0 <= k < |rest| + 1
        ensures IsEventFor(m, ctx, code[i + k], ([EventOf(m, ctx, code[i])] + rest)[k])
      {
        if k > 0 {
          assert code[i + k] == code[(i + 1) + (k - 1)];
          assert IsEventFor(m, ctx, code[(i + 1) + (k - 1)], rest[k - 1]);
        }
      }
    }
  }

  /** A thread whose function has neither calls nor forks: its events are the code of that function. */
  lemma StraightThread(m: Module, chain: seq<nat>, node: Node, ctx: nat)
    requires node.fn < |m.summaries|
    requires forall k :: 0 <= k < |m.summaries[node.fn]| ==> m.summaries[node.fn][k].kind != ForkIR && m.summaries[node.fn][k].kind != CallIR
    ensures
      var events, code := Inlined(m, chain, node, [], true, ctx).events, m.summaries[node.fn];
      |events| == |code| && forall k :: 0 <= k < |events| ==> IsEventFor(m, node.ctx, code[k], events[k])
  {
    StraightLine(m, chain, node, [] + [node.fn], 0, node.ctx);
    hide InlinedFrom, IsEventFor;
    var events := InlinedFrom(m, chain, node, [] + [node.fn], 0, true, node.ctx).events;
    forall k | 0 <= k < |events|
      ensures IsEventFor(m, node.ctx, m.summaries[node.fn][k], events[k])
    {
      assert IsEventFor(m, node.ctx, m.summaries[node.fn][0 + k], events[k]);
    }
  }

  // ---- What hooks can do --------------------------------------------------------------------

  lemma {:induction false} JoinsMeans(t: nat, s: Recorded, n: nat)
    requires t < |s.all|
    ensures EmitJoins(t, s, n).all == s.all[t := Thread(s.all[t].spawn, s.all[t].events + seq(n, _ => Join))]
    ensures EmitJoins(t, s, n).(all := s.all, log := s.log) == s
    decreases n
  {
    if n == 0 {
      assert s.all[t].events + seq(0, _ => Join) == s.all[t].events;
    } else {
      JoinsMeans(t, Emit(t, s, Join), n - 1);
      assert (s.all[t].events + [Join]) + seq(n - 1, _ => Join) == s.all[t].events + seq(n, _ => Join);
    }
  }

  /** A hook is asked once, appends exactly its joins to the thread, and may set what to skip to. */
  lemma HookedMeans(hooks: nat -> Visit, t: nat, s: Recorded)
    requires t < |s.all|
    ensures
      var visit, r := hooks(s.visits), Hooked(hooks, t, s);
      && r.visits == s.visits + 1 && r.ctx == s.ctx && r.inParallel == s.inParallel
      && r.skipUntil == (if visit.skipUntil.Some? then visit.skipUntil else s.skipUntil)
      && r.all == s.all[t := Thread(s.all[t].spawn, s.all[t].events + seq(visit.joins, _ => Join))]
  {
    JoinsMeans(t, s.(visits := s.visits + 1), hooks(s.visits).joins);
  }

  /** As long as the instruction to skip to does not come, nothing is recorded and no hook is asked. */
  lemma {:induction false} SkippedRest(m: Module, hooks: nat -> Visit, node: Node, chain: seq<nat>, calls: seq<nat>, t: nat, i: nat, j: nat, s: Recorded)
    requires node.fn < |m.summaries| && i <= j <= |m.summaries[node.fn]| && s.skipUntil.Some?
    requires forall k :: i <= k < j ==> m.summaries[node.fn][k].inst != s.skipUntil.value
    ensures TracedFrom(m, hooks, node, chain, calls, t, i, s) == TracedFrom(m, hooks, node, chain, calls, t, j, s)
    decreases j - i
  {
    hide TracedKind;
    if i < j {
      SkippedRest(m, hooks, node, chain, calls, t, i + 1, j, s);
    }
  }

  /** Code that a hook skips leaves nothing but the joins of the hook; the code that ends skipping is itself not skipped. */
  lemma SkipMeans(m: Module, hooks: nat -> Visit, node: Node, ir: IR, chain: seq<nat>, calls: seq<nat>, t: nat, s: Recorded)
    requires t < |s.all| && s.skipUntil == None
    ensures hooks(s.visits).skip ==>
      var r, joins := TracedIR(m, hooks, node, ir, chain, calls, t, s), seq(hooks(s.visits).joins, _ => Join);
      r.all == s.all || r.all == s.all[t := Thread(s.all[t].spawn, s.all[t].events + joins)]
    ensures TracedIR(m, hooks, node, ir, chain, calls, t, s.(skipUntil := Some(ir.inst))) == TracedIR(m, hooks, node, ir, chain, calls, t, s)
  {
    hide TracedKind, Hooked;
    assert s.(skipUntil := None) == s;
    HookedMeans(hooks, t, s);
  }

  // ---- Whole programs -----------------------------------------------------------------------

  /** What the events of a program are: from code of their kind, and without hooks exactly the code of the threads. */
  ghost predicate MeansCode(m: Module, hooks: nat -> Visit, entry: Node, all: seq<Thread>) {
    && (forall t, i :: 0 <= t < |all| && 0 <= i < |all[t].events| ==> HasSource(m, all[t].events[i]))
    && (Silent(hooks) ==> |all| > 0 && all[0].events == Inlined(m, [], entry, [], false, 0).events && AllSpelled(m, all, 1))
  }

  lemma ProgramMeansCode(m: Module, hooks: nat -> Visit, entry: Node)
    ensures MeansCode(m, hooks, entry, Traced(m, hooks, entry, [], [], 0, Recorded(false, 0, [Thread(None, [])], [], None, 0)).all)
  {
    var start := Recorded(false, 0, [Thread(None, [])], [], None, 0);
    TracedSourced(m, hooks, entry, [], [], 0, start);
    if Silent(hooks) {
      assert ChainReal(start.all, 0) && ChainOf(start.all, 0) == [];
      TracedInlined(m, hooks, entry, [], [], 0, start);
    }
    hide Traced, Inlined, IsSpelled, HasSource, ChainReal, Silent;
  }
}
