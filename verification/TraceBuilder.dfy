/**
 * Building thread traces (src/Trace/Build/TraceBuilder.cpp, src/Trace/ThreadTrace.cpp, src/Trace/ProgramTrace.cpp):
 * a recursion over calls and forks that may be cyclic, with runtime hooks that skip code or add joins.
 */
module TraceBuilders {
  import opened Options
  import opened Traces
  import opened TraceTrees
  import opened TraceSpecs
  import opened TraceFacts
  import opened TraceMeanings

  /** Only thread `t` got more events, and threads were only added. */
  ghost predicate Grew(all0: seq<Thread>, all: seq<Thread>, t: nat) {
    && t < |all0| <= |all|
    && (forall u :: 0 <= u < |all0| && u != t ==> all[u] == all0[u])
    && all0[t].spawn == all[t].spawn && all0[t].events <= all[t].events
  }

  /** The state shared by all threads; `all` and `log` record what has been created so far. */
  class ProgramBuildState {
    var currentTID: nat
    var inParallel: bool
    var visits: nat
    ghost var all: seq<Thread>
    ghost var log: seq<Pid>

    constructor ()
      ensures currentTID == 0 && !inParallel && visits == 0 && all == [Thread(None, [])] && log == []
    {
      currentTID, inParallel, visits, all, log := 0, false, 0, [Thread(None, [])], [];
    }
  }

  /** Every thread from `t` on has left all the calls it entered. */
  ghost predicate Finished(all: seq<Thread>, t: nat) {
    forall u :: t <= u < |all| ==> Frames(all[u].events) == Some([])
  }

  /** The trees `ts` are the threads from `from` on. */
  ghost predicate Listed(ts: seq<Trace>, all: seq<Thread>, from: nat) {
    Lists(PreorderAll(ts), all, from)
  }

  /** Thread `t` is being built: its record, its children so far, its chain of entries and its open calls. */
  ghost predicate Building(all: seq<Thread>, log: seq<Pid>, t: nat, self: Thread, children: seq<Trace>, chain: seq<nat>) {
    && t < |all| && all[t] == self && Listed(children, all, t + 1)
    && Built(all, log) && chain == EntryChain(all, t)
    && Frames(self.events).Some? && Finished(all, t + 1)
  }

  /** Appending an event that is no fork. */
  lemma PushBuilding(all: seq<Thread>, log: seq<Pid>, t: nat, self: Thread, children: seq<Trace>, chain: seq<nat>, e: Event)
    requires Building(all, log, t, self, children, chain) && !e.Fork? && Shift(Frames(self.events).value, e).Some?
    ensures Building(Pushed(all, t, e), log + [Pid(t, |self.events|)], t, Thread(self.spawn, self.events + [e]), children, chain)
    ensures Frames(self.events + [e]) == Shift(Frames(self.events).value, e)
    ensures Grew(all, Pushed(all, t, e), t) && |Pushed(all, t, e)| == |all|
  {
    hide *;
    BuildingParts(all, log, t, self, children, chain);
    PushKeeps(all, log, t, e);
    FramesAppend(self.events, e);
    PushRest(all, t, children, e);
    IsBuilding(Pushed(all, t, e), log + [Pid(t, |self.events|)], t, Thread(self.spawn, self.events + [e]), children, chain);
  }

  /** Threads after `t` are not touched when `t` gets an event. */
  lemma PushRest(all: seq<Thread>, t: nat, children: seq<Trace>, e: Event)
    requires t < |all| && Listed(children, all, t + 1) && Finished(all, t + 1)
    ensures |Pushed(all, t, e)| == |all| && Pushed(all, t, e)[t] == Thread(all[t].spawn, all[t].events + [e])
    ensures Listed(children, Pushed(all, t, e), t + 1) && Finished(Pushed(all, t, e), t + 1) && Grew(all, Pushed(all, t, e), t)
    ensures SpawnsOk(all) ==> SpawnsOk(Pushed(all, t, e))
  {
    hide Frames, PreorderAll;
  }

  lemma SelfThere(all: seq<Thread>, log: seq<Pid>, t: nat, self: Thread, children: seq<Trace>, chain: seq<nat>)
    requires Building(all, log, t, self, children, chain)
    ensures t < |all| && all[t] == self
  {
  }

  /** The state for one thread. */
  class ThreadBuildState {
    const program: ProgramBuildState
    const tid: nat
    const spawn: Option<Pid>
    const chain: seq<nat>
    var events: seq<Event>
    var childThreads: seq<Trace>
    var skipUntil: Option<nat>
    var ctx: nat
    var callstack: seq<nat>

    ghost predicate Valid()
      reads this, program
    {
      && program.currentTID + 1 == |program.all| && program.inParallel == (|program.all| > 1)
      && Building(program.all, program.log, tid, Thread(spawn, events), childThreads, chain)
    }

    constructor (program: ProgramBuildState, tid: nat, spawn: Option<Pid>, chain: seq<nat>)
      requires program.currentTID == tid && |program.all| == tid + 1 && program.all[tid] == Thread(spawn, [])
      requires program.inParallel == (tid > 0)
      requires Built(program.all, program.log) && chain == EntryChain(program.all, tid)
      ensures Valid() && this.program == program && this.tid == tid && this.spawn == spawn && this.chain == chain
      ensures events == [] && callstack == [] && skipUntil == None && ctx == 0
    {
      this.program, this.tid, this.spawn, this.chain := program, tid, spawn, chain;
      events, childThreads, skipUntil, ctx, callstack := [], [], None, 0, [];
    }

    ghost function Now(): Recorded
      reads this, program
    {
      Recorded(program.inParallel, program.visits, program.all, program.log, skipUntil, ctx)
    }

    /** Append an event that is no fork; its id is its position. */
    method Push(e: Event)
      requires Valid() && !e.Fork? && Frames(events).Some? && Shift(Frames(events).value, e).Some?
      modifies `events, program`all, program`log
      ensures Valid() && events == old(events) + [e] && Grew(old(program.all), program.all, tid)
      ensures Frames(events) == Shift(old(Frames(events)).value, e) && Now() == Emit(tid, old(Now()), e)
    {
      PushBuilding(program.all, program.log, tid, Thread(spawn, events), childThreads, chain, e);
      SelfThere(program.all, program.log, tid, Thread(spawn, events), childThreads, chain);
      hide Building, Frames, Grew;
      program.log := program.log + [Pid(tid, |events|)];
      program.all := Pushed(program.all, tid, e);
      events := events + [e];
    }

    /** What is open of a valid state: its calls. */
    lemma Open()
      requires Valid()
      ensures Frames(events).Some?
    {
    }

    lemma Same()
      requires Valid()
      ensures Grew(program.all, program.all, tid)
    {
    }

    /** `shouldSkipIR`. */
    method ShouldSkipIR(inst: nat) returns (r: bool)
      modifies `skipUntil
      ensures r <==> old(skipUntil).Some? && old(skipUntil).value != inst
      ensures skipUntil == if r then old(skipUntil) else None
    {
      if skipUntil.None? {
        return false;
      }
      if inst != skipUntil.value {
        return true;
      }
      skipUntil := None;
      return false;
    }
  }

  /** `isRecursiveThreadSpawn`: count the entry along the chain of spawns, itself included. */
  method IsRecursiveThreadSpawn(chain: seq<nat>, entry: nat, n: nat) returns (r: bool)
    ensures r <==> entry in chain && 1 + multiset(chain)[entry] >= n
  {
    var count, i := 1, 0;
    assert chain[..|chain|] == chain;
    while i < |chain|
      invariant i <= |chain| && count == 1 + multiset(chain[..i])[entry]
      invariant count > 1 ==> count < n
    {
      assert chain[..i + 1] == chain[..i] + [chain[i]];
      if chain[i] == entry {
        count := count + 1;
        if count >= n {
          assert chain == chain[..i + 1] + chain[i + 1..];
          return true;
        }
      }
      i := i + 1;
    }
    assert entry in chain <==> entry in multiset(chain);
    return false;
  }

  lemma GrewTrans(a: seq<Thread>, b: seq<Thread>, c: seq<Thread>, t: nat)
    requires Grew(a, b, t) && Grew(b, c, t)
    ensures Grew(a, c, t)
  {
  }

  /** Once the child is finished, its tree joins the other children. */
  lemma ChildBuilding(all: seq<Thread>, log: seq<Pid>, t: nat, self: Thread, children: seq<Trace>, chain: seq<nat>,
                      e: Event, all3: seq<Thread>, log3: seq<Pid>, child: Trace)
    requires Building(all, log, t, self, children, chain) && e.Fork? && e.entry !in chain
    requires Grew(Forked(all, t, e), all3, |all|) && Built(all3, log3)
    requires Lists(Preorder(child), all3, |all|) && Finished(all3, |all|)
    ensures Building(all3, log3, t, Thread(self.spawn, self.events + [e]), children + [child], chain)
    ensures Frames(self.events + [e]) == Frames(self.events) && Grew(all, all3, t)
  {
    hide *;
    BuildingParts(all, log, t, self, children, chain);
    ChildChain(all, log, t, e, all3, log3);
    ChildLists(all, t, children, e, all3, child);
    ChildRest(all, t, e, all3);
    FramesFork(self.events, e);
    IsBuilding(all3, log3, t, Thread(self.spawn, self.events + [e]), children + [child], chain);
  }

  lemma FramesFork(events: seq<Event>, e: Event)
    requires e.Fork? && Frames(events).Some?
    ensures Frames(events + [e]) == Frames(events)
  {
    FramesAppend(events, e);
  }

  lemma BuildingParts(all: seq<Thread>, log: seq<Pid>, t: nat, self: Thread, children: seq<Trace>, chain: seq<nat>)
    requires Building(all, log, t, self, children, chain)
    ensures t < |all| && all[t] == self && Listed(children, all, t + 1)
    ensures Built(all, log) && SpawnsOk(all) && chain == EntryChain(all, t) && Frames(self.events).Some? && Finished(all, t + 1)
  {
  }

  lemma IsBuilding(all: seq<Thread>, log: seq<Pid>, t: nat, self: Thread, children: seq<Trace>, chain: seq<nat>)
    requires t < |all| && all[t] == self && Listed(children, all, t + 1)
    requires Built(all, log) && chain == EntryChain(all, t) && Frames(self.events).Some? && Finished(all, t + 1)
    ensures Building(all, log, t, self, children, chain)
  {
  }

  lemma ChildRest(all: seq<Thread>, t: nat, e: Event, all3: seq<Thread>)
    requires t < |all| && Grew(Forked(all, t, e), all3, |all|) && Finished(all, t + 1) && Finished(all3, |all|)
    ensures t < |all3| && all3[t] == Thread(all[t].spawn, all[t].events + [e]) && Finished(all3, t + 1) && Grew(all, all3, t)
  {
    hide Frames;
    var all2 := Forked(all, t, e);
    assert all3[t] == all2[t];
    assert forall u :: t < u < |all| ==> all3[u] == all2[u] == all[u];
  }

  lemma ChildLists(all: seq<Thread>, t: nat, children: seq<Trace>, e: Event, all3: seq<Thread>, child: Trace)
    requires t < |all| && Listed(children, all, t + 1)
    requires Grew(Forked(all, t, e), all3, |all|) && Lists(Preorder(child), all3, |all|)
    ensures Listed(children + [child], all3, t + 1)
  {
    PreorderAppend(children, child);
    hide Preorder, PreorderAll;
    var all2 := Forked(all, t, e);
    assert forall u :: t < u < |all| ==> all3[u] == all2[u] == all[u];
    ListsAppend(PreorderAll(children), Preorder(child), all3, t + 1);
  }

  lemma ChildChain(all: seq<Thread>, log: seq<Pid>, t: nat, e: Event, all3: seq<Thread>, log3: seq<Pid>)
    requires t < |all| && Built(all, log) && e.Fork? && e.entry !in EntryChain(all, t)
    requires Grew(Forked(all, t, e), all3, |all|) && Built(all3, log3)
    ensures EntryChain(all3, t) == EntryChain(all, t)
  {
    ForkKeeps(all, log, t, e);
    ChainStable(Forked(all, t, e), all3, t);
  }

  /** `preVisit` of the runtime models: whatever hook number `visits` says. */
  method PreVisit(hooks: nat -> Visit, st: ThreadBuildState) returns (skip: bool)
    requires st.Valid()
    modifies st`events, st`skipUntil, st.program`all, st.program`log, st.program`visits
    ensures st.Valid() && Grew(old(st.program.all), st.program.all, st.tid) && Frames(st.events) == old(Frames(st.events))
    ensures skip == hooks(old(st.program.visits)).skip && st.Now() == Hooked(hooks, st.tid, old(st.Now()))
  {
    hide Frames, Building, Grew, Emit;
    var visit := hooks(st.program.visits);
    st.program.visits := st.program.visits + 1;
    st.Same();
    var k := 0;
    while k < visit.joins
      invariant k <= visit.joins && st.Valid() && Frames(st.events) == old(Frames(st.events))
      invariant Grew(old(st.program.all), st.program.all, st.tid)
      invariant EmitJoins(st.tid, st.Now(), visit.joins - k) == EmitJoins(st.tid, old(st.Now()).(visits := old(st.program.visits) + 1), visit.joins)
    {
      st.Open();
      ghost var before := st.program.all;
      st.Push(Join);
      GrewTrans(old(st.program.all), before, st.program.all, st.tid);
      k := k + 1;
    }
    if visit.skipUntil.Some? {
      st.skipUntil := visit.skipUntil;
    }
    return visit.skip;
  }

  /** `buildTrace`: the code of one function, unless it is already on the call stack. */
  method BuildTrace(m: Module, hooks: nat -> Visit, node: Node, st: ThreadBuildState)
    requires m.Ok() && node.fn < |m.summaries| && st.Valid()
    modifies st, st.program
    ensures st.Valid() && Grew(old(st.program.all), st.program.all, st.tid)
    ensures Frames(st.events) == old(Frames(st.events)) && st.callstack == old(st.callstack)
    ensures st.Now() == Traced(m, hooks, node, st.chain, st.callstack, st.tid, old(st.Now()))
    decreases |m.Others(st.chain)|, |m.Others(st.callstack)|, 2
  {
    hide Frames, Building, Grew, m.Ok, m.Others, TracedIR, TracedKind;
    st.Same();
    if node.fn in st.callstack {
      return;
    }
    st.callstack := st.callstack + [node.fn];
    OthersShrink(m, old(st.callstack), st.callstack, node.fn);
    st.ctx := node.ctx;
    var summary := m.summaries[node.fn];
    var i := 0;
    while i < |summary|
      invariant i <= |summary| && st.Valid() && Grew(old(st.program.all), st.program.all, st.tid)
      invariant Frames(st.events) == old(Frames(st.events)) && st.callstack == old(st.callstack) + [node.fn]
      invariant TracedFrom(m, hooks, node, st.chain, st.callstack, st.tid, i, st.Now())
             == Traced(m, hooks, node, st.chain, old(st.callstack), st.tid, old(st.Now()))
    {
      ghost var before := st.program.all;
      VisitIR(m, hooks, node, summary[i], st);
      GrewTrans(old(st.program.all), before, st.program.all, st.tid);
      i := i + 1;
    }
    st.callstack := st.callstack[..|st.callstack| - 1];
  }

  /** The body of the loop over a function summary. */
  method VisitIR(m: Module, hooks: nat -> Visit, node: Node, ir: IR, st: ThreadBuildState)
    requires m.Ok() && st.Valid()
    modifies st, st.program
    ensures st.Valid() && Grew(old(st.program.all), st.program.all, st.tid)
    ensures Frames(st.events) == old(Frames(st.events)) && st.callstack == old(st.callstack)
    ensures st.Now() == TracedIR(m, hooks, node, ir, st.chain, st.callstack, st.tid, old(st.Now()))
    decreases |m.Others(st.chain)|, |m.Others(st.callstack)|, 4
  {
    hide Frames, Building, Grew, m.Ok, m.Others;
    st.Same();
    var skipping := st.ShouldSkipIR(ir.inst);
    if skipping {
      return;
    }
    if !st.program.inParallel && ir.kind != ForkIR && ir.kind != CallIR {
      return;
    }
    var skip := PreVisit(hooks, st);
    if skip {
      return;
    }
    st.Open();
    ghost var before := st.program.all;
    match ir.kind {
      case ReadIR =>
        st.Push(Read(m.accessed(st.ctx, ir.inst)));
      case WriteIR =>
        st.Push(Write(m.accessed(st.ctx, ir.inst)));
      case ForkIR =>
        VisitFork(m, hooks, ir.inst, st);
      case JoinIR =>
        st.Push(Join);
      case LockIR =>
        st.Push(Lock(m.lock(ir.inst)));
      case UnlockIR =>
        st.Push(Unlock(m.lock(ir.inst)));
      case BarrierIR =>
        st.Push(Barrier(ir.inst));
      case CallIR =>
        VisitCall(m, hooks, node, ir.inst, st);
    }
    GrewTrans(old(st.program.all), before, st.program.all, st.tid);
  }

  lemma ShiftBack(frames: seq<nat>, site: nat)
    ensures Shift(frames, EnterCall(site)) == Some(frames + [site]) && Shift(frames + [site], LeaveCall(site)) == Some(frames)
    ensures Shift(frames, ExternCall(site)) == Some(frames)
  {
  }

  lemma TracedCall(m: Module, hooks: nat -> Visit, node: Node, inst: nat, chain: seq<nat>, calls: seq<nat>, t: nat, s: Recorded)
    ensures TracedKind(m, hooks, node, IR(CallIR, inst), chain, calls, t, s) ==
      match m.callee(node.ctx, inst)
      case Unresolved => s
      case External => Emit(t, s, ExternCall(inst))
      case Direct(target) => Emit(t, Traced(m, hooks, target, chain, calls, t, Emit(t, s, EnterCall(inst))), LeaveCall(inst))
  {
  }

  /** A call: nothing for unknown targets, one event for external ones, a bracketed trace for the others. */
  method VisitCall(m: Module, hooks: nat -> Visit, node: Node, inst: nat, st: ThreadBuildState)
    requires m.Ok() && st.Valid()
    modifies st, st.program
    ensures st.Valid() && Grew(old(st.program.all), st.program.all, st.tid)
    ensures Frames(st.events) == old(Frames(st.events)) && st.callstack == old(st.callstack)
    ensures st.Now() == TracedKind(m, hooks, node, IR(CallIR, inst), st.chain, st.callstack, st.tid, old(st.Now()))
    decreases |m.Others(st.chain)|, |m.Others(st.callstack)|, 3
  {
    var callee := m.callee(node.ctx, inst);
    assert callee.Direct? ==> callee.node.fn < |m.summaries|;
    TracedCall(m, hooks, node, inst, st.chain, st.callstack, st.tid, st.Now());
    hide Frames, Building, Grew, m.Others, m.Ok, Traced, TracedKind, Emit, Shift;
    st.Same();
    match callee {
      case Unresolved =>
      case External =>
        st.Open();
        ShiftBack(Frames(st.events).value, inst);
        st.Push(ExternCall(inst));
      case Direct(target) =>
        st.Open();
        ShiftBack(Frames(st.events).value, inst);
        st.Push(EnterCall(inst));
        ghost var entered := st.program.all;
        BuildTrace(m, hooks, target, st);
        ghost var built := st.program.all;
        st.Push(LeaveCall(inst));
        GrewTrans(old(st.program.all), entered, built, st.tid);
        GrewTrans(old(st.program.all), built, st.program.all, st.tid);
    }
  }

  /** A fork: the event and the whole trace of the new thread, unless its entry is already on the chain of spawns. */
  method VisitFork(m: Module, hooks: nat -> Visit, inst: nat, st: ThreadBuildState)
    requires m.Ok() && st.Valid()
    modifies st, st.program
    ensures st.Valid() && Grew(old(st.program.all), st.program.all, st.tid)
    ensures Frames(st.events) == old(Frames(st.events)) && st.callstack == old(st.callstack)
    ensures st.Now() == TracedFork(m, hooks, inst, st.chain, st.tid, old(st.Now()))
    decreases |m.Others(st.chain)|, |m.Others(st.callstack)|, 3
  {
    hide Frames, Building, Grew, m.Others, Built, EntryChain, Forked, Traced;
    SelfThere(st.program.all, st.program.log, st.tid, Thread(st.spawn, st.events), st.childThreads, st.chain);
    var program := st.program;
    var entry := m.entry(st.ctx, inst);
    assert entry.fn < |m.summaries|;
    st.Same();
    var recursive := IsRecursiveThreadSpawn(st.chain, entry.fn, 2);
    assert recursive <==> entry.fn in st.chain;
    if recursive {
      return;
    }
    var e := Fork(inst, entry.fn);
    var fork := Pid(st.tid, |st.events|);
    ghost var all, log := program.all, program.log;
    ForkBuilding(all, log, st.tid, Thread(st.spawn, st.events), st.childThreads, st.chain, e);
    OthersShrink(m, st.chain, [entry.fn] + st.chain, entry.fn);
    st.events := st.events + [e];
    program.log := program.log + [fork];
    program.all := Forked(program.all, st.tid, e);
    program.inParallel := true;
    var child := BuildThread(m, hooks, program, fork, entry, [entry.fn] + st.chain);
    ChildBuilding(all, log, st.tid, Thread(st.spawn, old(st.events)), st.childThreads, st.chain, e, program.all, program.log, child);
    st.childThreads := st.childThreads + [child];
  }

  /** A fork is ready for its thread. */
  lemma ForkBuilding(all: seq<Thread>, log: seq<Pid>, t: nat, self: Thread, children: seq<Trace>, chain: seq<nat>, e: Event)
    requires Building(all, log, t, self, children, chain) && e.Fork? && e.entry !in chain
    ensures t < |all| && |Forked(all, t, e)| == |all| + 1 && Forked(all, t, e)[|all|] == Thread(Some(Pid(t, |self.events|)), [])
    ensures Built(Forked(all, t, e), log + [Pid(t, |self.events|)]) && SpawnsOk(Forked(all, t, e))
    ensures EntryChain(Forked(all, t, e), |all|) == [e.entry] + chain
  {
    ForkKeeps(all, log, t, e);
  }

  /** The `ThreadTrace` constructor for a spawned thread. */
  method BuildThread(m: Module, hooks: nat -> Visit, program: ProgramBuildState, fork: Pid, entry: Node, chain: seq<nat>)
    returns (r: Trace)
    requires m.Ok() && entry.fn < |m.summaries| && program.inParallel
    requires program.currentTID + 2 == |program.all| && program.all[program.currentTID + 1] == Thread(Some(fork), [])
    requires Built(program.all, program.log) && chain == EntryChain(program.all, program.currentTID + 1)
    modifies program
    ensures program.inParallel && program.currentTID + 1 == |program.all| && Built(program.all, program.log)
    ensures Grew(old(program.all), program.all, old(program.currentTID) + 1)
    ensures Lists(Preorder(r), program.all, old(program.currentTID) + 1) && Finished(program.all, old(program.currentTID) + 1)
    ensures
      var end := Traced(m, hooks, entry, chain, [], old(program.currentTID) + 1,
                        Recorded(old(program.inParallel), old(program.visits), old(program.all), old(program.log), None, 0));
      program.inParallel == end.inParallel && program.visits == end.visits && program.all == end.all && program.log == end.log
    decreases |m.Others(chain)|, |m.Others([])|, 3
  {
    hide m.Ok, m.Others, Built, EntryChain;
    program.currentTID := program.currentTID + 1;
    var tid := program.currentTID;
    var st := new ThreadBuildState(program, tid, Some(fork), chain);
    BuildTrace(m, hooks, entry, st);
    r := Trace(tid, Some(fork), st.events, st.childThreads);
    ListsCons(r, program.all);
  }

  lemma ListsCons(t: Trace, all: seq<Thread>)
    requires t.id < |all| && all[t.id] == AsThread(t) && Listed(t.children, all, t.id + 1)
    ensures Lists(Preorder(t), all, t.id)
  {
  }

  /** The order in which a stack of threads, last one first, is going to be listed. */
  ghost function Pending(worklist: seq<Trace>): seq<Trace> {
    if worklist == [] then [] else Preorder(worklist[|worklist| - 1]) + Pending(worklist[..|worklist| - 1])
  }

  lemma PendingPush(worklist: seq<Trace>, t: Trace)
    ensures Pending(worklist + [t]) == Preorder(t) + Pending(worklist)
  {
    assert (worklist + [t])[..|worklist + [t]| - 1] == worklist;
  }

  lemma PreorderFirst(ts: seq<Trace>, k: nat)
    requires k < |ts|
    ensures PreorderAll(ts[k..]) == Preorder(ts[k]) + PreorderAll(ts[k + 1..])
  {
    assert ts[k..][1..] == ts[k + 1..];
  }

  /** Children are pushed last to first, so that the first one comes off the stack first. */
  method PushChildren(worklist: seq<Trace>, children: seq<Trace>) returns (r: seq<Trace>)
    ensures Pending(r) == PreorderAll(children) + Pending(worklist)
  {
    hide Preorder, PreorderAll, Pending;
    r := worklist;
    var k := |children|;
    assert PreorderAll(children[k..]) == [] by {
      PreorderNone(children);
    }
    while k > 0
      invariant k <= |children| && Pending(r) == PreorderAll(children[k..]) + Pending(worklist)
    {
      PreorderFirst(children, k - 1);
      PendingPush(r, children[k - 1]);
      k := k - 1;
      r := r + [children[k]];
    }
    assert children[0..] == children;
  }

  lemma PreorderNone(ts: seq<Trace>)
    ensures PreorderAll(ts[|ts|..]) == []
  {
  }

  lemma PendingPop(worklist: seq<Trace>)
    requires worklist != []
    ensures Pending(worklist) ==
      [worklist[|worklist| - 1]] + (PreorderAll(worklist[|worklist| - 1].children) + Pending(worklist[..|worklist| - 1]))
  {
    hide *;
    var t, rest := worklist[|worklist| - 1], worklist[..|worklist| - 1];
    PendingLast(worklist);
    PreorderSelf(t);
    Associates([t], PreorderAll(t.children), Pending(rest));
  }

  lemma PendingLast(worklist: seq<Trace>)
    requires worklist != []
    ensures Pending(worklist) == Preorder(worklist[|worklist| - 1]) + Pending(worklist[..|worklist| - 1])
  {
  }

  lemma PreorderSelf(t: Trace)
    ensures Preorder(t) == [t] + PreorderAll(t.children)
  {
  }

  lemma Associates(a: seq<Trace>, b: seq<Trace>, c: seq<Trace>)
    ensures (a + b) + c == a + (b + c)
  {
  }

  /** The flattening loop of `ProgramTrace`: the threads in preorder. */
  method Flatten(main: Trace) returns (threads: seq<Trace>)
    ensures threads == Preorder(main)
  {
    threads := [];
    var worklist := [main];
    PendingPush([], main);
    assert [] + [main] == [main];
    assert Pending([]) == [];
    hide Preorder, PreorderAll, Pending;
    assert Pending(worklist) == Preorder(main);
    while worklist != []
      invariant threads + Pending(worklist) == Preorder(main)
      decreases |Preorder(main)| - |threads|
    {
      var current := worklist[|worklist| - 1];
      PendingPop(worklist);
      ghost var rest := worklist[..|worklist| - 1];
      ghost var before := threads;
      worklist := worklist[..|worklist| - 1];
      threads := threads + [current];
      worklist := PushChildren(worklist, current.children);
      assert before + ([current] + (PreorderAll(current.children) + Pending(rest)))
          == (before + [current]) + (PreorderAll(current.children) + Pending(rest));
    }
    PendingEmpty();
  }

  lemma PendingEmpty()
    ensures Pending([]) == []
  {
  }

  /** The threads of a program trace without their children. */
  function Flat(threads: seq<Trace>): seq<Thread> {
    seq(|threads|, i requires 0 <= i < |threads| => AsThread(threads[i]))
  }

  /** `ProgramTrace`: the main thread, everything it spawns, and the list of all threads in the order of their ids. */
  method BuildProgram(m: Module, hooks: nat -> Visit, entry: Node) returns (threads: seq<Trace>, ghost log: seq<Pid>)
    requires m.Ok() && entry.fn < |m.summaries|
    ensures WellFormed(Flat(threads), log)
    ensures forall i :: 0 <= i < |threads| ==> threads[i].id == i
    ensures threads != [] && threads == Preorder(threads[0])
    ensures
      var end := Traced(m, hooks, entry, [], [], 0, Recorded(false, 0, [Thread(None, [])], [], None, 0));
      Flat(threads) == end.all && log == end.log
    ensures ForkFirst(Flat(threads), log) && Shallow(Flat(threads), |m.summaries|) && MeansCode(m, hooks, entry, Flat(threads))
  {
    StartFacts(m, hooks, entry);
    ProgramMeansCode(m, hooks, entry);
    hide m.Ok, Traced, ForkFirst, Shallow, MeansCode;
    var program := new ProgramBuildState();
    StartBuilt();
    var st := new ThreadBuildState(program, 0, None, []);
    BuildTrace(m, hooks, entry, st);
    var main := Trace(0, None, st.events, st.childThreads);
    threads := Flatten(main);
    log := program.log;
    ListsCons(main, program.all);
    ListsFlat(threads, program.all);
    hide Built, Preorder, Frames;
  }

  /** The facts about what is traced, for a whole program. */
  lemma StartFacts(m: Module, hooks: nat -> Visit, entry: Node)
    ensures
      var end := Traced(m, hooks, entry, [], [], 0, Recorded(false, 0, [Thread(None, [])], [], None, 0));
      ForkFirst(end.all, end.log) && Shallow(end.all, |m.summaries|)
  {
    hide Traced;
    var start := Recorded(false, 0, [Thread(None, [])], [], None, 0);
    TracedArmed(m, hooks, entry, [], [], 0, start);
    TracedDepth(m, hooks, entry, [], [], 0, start, []);
  }

  lemma StartBuilt()
    ensures Built([Thread(None, [])], []) && EntryChain([Thread(None, [])], 0) == []
  {
  }

  lemma ListsFlat(list: seq<Trace>, all: seq<Thread>)
    requires Lists(list, all, 0)
    ensures Flat(list) == all
  {
  }
}
