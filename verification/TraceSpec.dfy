/**
 * What the trace builder records, as a function of the code, the runtime hooks and the state it starts in.
 * Threads are kept as one flat list; the builder itself (TraceBuilder.dfy) nests them.
 */
module TraceSpecs {
  import opened Options
  import opened Sets
  import opened Traces
  import opened TraceTrees

  /** A node of the call graph: a function and the context it is analysed in. */
  datatype Node = Node(fn: nat, ctx: nat)

  datatype Kind = ReadIR | WriteIR | ForkIR | JoinIR | LockIR | UnlockIR | BarrierIR | CallIR

  datatype IR = IR(kind: Kind, inst: nat)

  /** What the target of a call turns out to be. */
  datatype Callee = Unresolved | External | Direct(node: Node)

  /** The summaries of all functions and the answers of the pointer analysis. */
  datatype Module = Module(
    summaries: seq<seq<IR>>,
    accessed: (nat, nat) -> seq<nat>,
    lock: nat -> nat,
    entry: (nat, nat) -> Node,
    callee: (nat, nat) -> Callee) {

    /** Entries and callees are functions of the module. */
    ghost predicate Ok() {
      && (forall ctx, inst :: entry(ctx, inst).fn < |summaries|)
      && (forall ctx, inst :: callee(ctx, inst).Direct? ==> callee(ctx, inst).node.fn < |summaries|)
    }

    /** The functions that do not occur in `fns`. */
    ghost function Others(fns: seq<nat>): set<nat> {
      set f | 0 <= f < |summaries| && f !in fns
    }
  }

  /** What a runtime hook does with one piece of code: skip it, add joins first, or skip what follows up to an instruction. */
  datatype Visit = Visit(skip: bool, joins: nat, skipUntil: Option<nat>)

  lemma OthersShrink(m: Module, fns: seq<nat>, fns2: seq<nat>, f: nat)
    requires f < |m.summaries| && f !in fns && f in fns2 && forall g :: g in fns ==> g in fns2
    ensures |m.Others(fns2)| < |m.Others(fns)|
  {
    var A, B := m.Others(fns2), m.Others(fns);
    assert f in B && f !in A;
    assert A <= B - {f};
    SubsetSize(A, B - {f});
  }

  /** What a builder leaves behind: the program-wide state, and the position of the current thread in its code. */
  datatype Recorded = Recorded(inParallel: bool, visits: nat, all: seq<Thread>, log: seq<Pid>, skipUntil: Option<nat>, ctx: nat)

  ghost function Emit(t: nat, s: Recorded, e: Event): Recorded {
    if t < |s.all| then s.(all := Pushed(s.all, t, e), log := s.log + [Pid(t, |s.all[t].events|)]) else s
  }

  ghost function EmitJoins(t: nat, s: Recorded, n: nat): Recorded
    decreases n
  {
    if n == 0 then s else EmitJoins(t, Emit(t, s, Join), n - 1)
  }

  /** The hook's joins and its skip target are taken over. */
  ghost function Hooked(hooks: nat -> Visit, t: nat, s: Recorded): Recorded {
    var visit := hooks(s.visits);
    var r := EmitJoins(t, s.(visits := s.visits + 1), visit.joins);
    if visit.skipUntil.Some? then r.(skipUntil := visit.skipUntil) else r
  }

  /** The trace of a function called with `calls` on the call stack of thread `t`, whose spawn chain is `chain`. */
  ghost function Traced(m: Module, hooks: nat -> Visit, node: Node, chain: seq<nat>, calls: seq<nat>, t: nat, s: Recorded): Recorded
    decreases |m.Others(chain)|, |m.Others(calls)|, 2, 0
  {
    if node.fn in calls || node.fn >= |m.summaries| then s else
      OthersShrink(m, calls, calls + [node.fn], node.fn);
      TracedFrom(m, hooks, node, chain, calls + [node.fn], t, 0, s.(ctx := node.ctx))
  }

  /** The trace of the code of a function from position `i` on. */
  ghost function TracedFrom(m: Module, hooks: nat -> Visit, node: Node, chain: seq<nat>, calls: seq<nat>, t: nat, i: nat, s: Recorded): Recorded
    requires node.fn < |m.summaries|
    decreases |m.Others(chain)|, |m.Others(calls)|, 5, |m.summaries[node.fn]| - i
  {
    if i >= |m.summaries[node.fn]| then s else
      TracedFrom(m, hooks, node, chain, calls, t, i + 1, TracedIR(m, hooks, node, m.summaries[node.fn][i], chain, calls, t, s))
  }

  ghost function TracedIR(m: Module, hooks: nat -> Visit, node: Node, ir: IR, chain: seq<nat>, calls: seq<nat>, t: nat, s: Recorded): Recorded
    decreases |m.Others(chain)|, |m.Others(calls)|, 4, 0
  {
    if s.skipUntil.Some? && s.skipUntil.value != ir.inst then s else
      var awake := s.(skipUntil := None);
      if !s.inParallel && ir.kind != ForkIR && ir.kind != CallIR then awake
      else if hooks(s.visits).skip then Hooked(hooks, t, awake)
      else TracedKind(m, hooks, node, ir, chain, calls, t, Hooked(hooks, t, awake))
  }

  ghost function TracedKind(m: Module, hooks: nat -> Visit, node: Node, ir: IR, chain: seq<nat>, calls: seq<nat>, t: nat, s: Recorded): Recorded
    decreases |m.Others(chain)|, |m.Others(calls)|, 3, 0
  {
    match ir.kind
    case ReadIR => Emit(t, s, Read(m.accessed(s.ctx, ir.inst)))
    case WriteIR => Emit(t, s, Write(m.accessed(s.ctx, ir.inst)))
    case ForkIR => TracedFork(m, hooks, ir.inst, chain, t, s)
    case JoinIR => Emit(t, s, Join)
    case LockIR => Emit(t, s, Lock(m.lock(ir.inst)))
    case UnlockIR => Emit(t, s, Unlock(m.lock(ir.inst)))
    case BarrierIR => Emit(t, s, Barrier(ir.inst))
    case CallIR =>
      match m.callee(node.ctx, ir.inst)
      case Unresolved => s
      case External => Emit(t, s, ExternCall(ir.inst))
      case Direct(target) =>
        Emit(t, Traced(m, hooks, target, chain, calls, t, Emit(t, s, EnterCall(ir.inst))), LeaveCall(ir.inst))
  }

  /** A fork of an entry that is not on the chain yet: its event, then the whole trace of the next thread. */
  ghost function TracedFork(m: Module, hooks: nat -> Visit, inst: nat, chain: seq<nat>, t: nat, s: Recorded): Recorded
    decreases |m.Others(chain)|, 0, 1, 0
  {
    var entry := m.entry(s.ctx, inst);
    if entry.fn in chain || entry.fn >= |m.summaries| || t >= |s.all| then s else
      var fork := Fork(inst, entry.fn);
      var start := Recorded(true, s.visits, Forked(s.all, t, fork), s.log + [Pid(t, |s.all[t].events|)], None, 0);
      OthersShrink(m, chain, [entry.fn] + chain, entry.fn);
      var end := Traced(m, hooks, entry, [entry.fn] + chain, [], |s.all|, start);
      end.(skipUntil := s.skipUntil, ctx := s.ctx)
  }
}
