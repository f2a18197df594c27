/** The call stack of an event (src/Reporter/Reporter.cpp:70-102). */
module Reporters {
  import opened Traces
  import opened TraceTrees

  /** Every thread leaves only calls it entered, and threads come after the thread that spawned them. */
  ghost predicate Bracketed(p: Program) {
    SpawnsOk(p.threads) && forall t :: 0 <= t < |p.threads| ==> Frames(p.threads[t].events).Some?
  }

  /** The calls open at `e` on its own thread, `e` included. */
  ghost function OwnFrames(p: Program, e: Pid): seq<nat>
    requires Bracketed(p) && p.IsEvent(e)
  {
    FramesPrefix(p.threads[e.tid].events, e.eid + 1);
    Frames(p.threads[e.tid].events[..e.eid + 1]).value
  }

  /** The calls open where the thread of `e` was spawned, the spawn itself, and then its own. */
  ghost function CallstackOf(p: Program, e: Pid): seq<nat>
    requires Bracketed(p) && p.IsEvent(e)
    decreases e.tid
  {
    (if e.tid == 0 then [] else CallstackOf(p, p.threads[e.tid].spawn.value))
    + OwnFrames(p, e)
    + (if p.At(e).Fork? then [p.At(e).site] else [])
  }

  lemma FramesStep(events: seq<Event>, i: nat)
    requires Frames(events).Some? && i < |events|
    ensures Frames(events[..i]).Some? && Frames(events[..i + 1]).Some? && Frames(events[..i + 1]) == Shift(Frames(events[..i]).value, events[i])
  {
    FramesPrefix(events, i);
    FramesPrefix(events, i + 1);
    assert events[..i + 1] == events[..i] + [events[i]];
    FramesAppend(events[..i], events[i]);
    hide Frames;
  }

  /** Replaying the calls of one thread on top of the frames of its parent never pops one of those. */
  method ReplayCalls(events: seq<Event>, parent: seq<nat>, last: nat) returns (callstack: seq<nat>)
    requires last < |events| && Frames(events).Some?
    ensures Frames(events[..last + 1]).Some? && callstack == parent + Frames(events[..last + 1]).value
  {
    assert Frames(events[..0]).value == [];
    hide Frames;
    callstack := parent;
    var i := 0;
    while i < |events|
      invariant i <= last + 1 && Frames(events[..i]).Some? && callstack == parent + Frames(events[..i]).value
    {
      if i > last {
        break;
      }
      FramesStep(events, i);
      if events[i].EnterCall? {
        callstack := callstack + [events[i].site];
      } else if events[i].LeaveCall? {
        assert |callstack| > |parent|;
        callstack := callstack[..|callstack| - 1];
      }
      i := i + 1;
    }
    assert i == last + 1;
  }

  /** `computeCallstack`: the calls open where the thread was spawned, then its own. */
  method ComputeCallstack(p: Program, target: Pid) returns (callstack: seq<nat>)
    requires Bracketed(p) && p.IsEvent(target)
    ensures callstack == CallstackOf(p, target)
    decreases target.tid
  {
    callstack := [];
    var events := p.threads[target.tid].events;
    var spawn := p.threads[target.tid].spawn;
    if spawn.Some? {
      callstack := ComputeCallstack(p, spawn.value);
    }
    ghost var parent := callstack;
    callstack := ReplayCalls(events, callstack, target.eid);
    if events[target.eid].Fork? {
      callstack := callstack + [events[target.eid].site];
    }
    hide SpawnsOk, CallstackOf, Frames;
    CallstackIs(p, target, parent);
  }

  lemma CallstackIs(p: Program, e: Pid, parent: seq<nat>)
    requires Bracketed(p) && p.IsEvent(e)
    requires parent == if p.threads[e.tid].spawn.Some? then CallstackOf(p, p.threads[e.tid].spawn.value) else []
    ensures CallstackOf(p, e) == parent + OwnFrames(p, e) + (if p.At(e).Fork? then [p.At(e).site] else [])
  {
  }

  /** The stack of an event starts with the whole stack of the fork that spawned its thread. */
  lemma SpawnIsBelow(p: Program, e: Pid)
    requires Bracketed(p) && p.IsEvent(e) && e.tid > 0
    ensures CallstackOf(p, p.threads[e.tid].spawn.value) <= CallstackOf(p, e)
    ensures p.threads[e.tid].spawn.value.tid < e.tid
  {
  }

  /** What an event puts on the stack by itself: the call it enters, or the fork it is. */
  function OwnSite(e: Event): seq<nat> {
    match e
    case EnterCall(site) => [site]
    case Fork(site, _) => [site]
    case _ => []
  }

  /** The stack of the first event of a thread is that of the fork that spawned it, and its own site. */
  lemma CallstackFirst(p: Program, t: nat)
    requires Bracketed(p) && p.IsEvent(Pid(t, 0))
    ensures t == 0 ==> CallstackOf(p, Pid(t, 0)) == OwnSite(p.At(Pid(t, 0)))
    ensures t > 0 ==> CallstackOf(p, Pid(t, 0)) == CallstackOf(p, p.threads[t].spawn.value) + OwnSite(p.At(Pid(t, 0)))
  {
    var e := Pid(t, 0);
    var parent := if t == 0 then [] else CallstackOf(p, p.threads[t].spawn.value);
    OwnFramesFirst(p, t);
    CallstackIs(p, e, parent);
    hide OwnFrames, CallstackOf, SpawnsOk;
    match p.At(e) {
      case EnterCall(site) =>
        assert parent + [site] + [] == parent + [site];
      case _ =>
        assert parent + [] == parent;
    }
  }

  lemma OwnFramesFirst(p: Program, t: nat)
    requires Bracketed(p) && p.IsEvent(Pid(t, 0))
    ensures OwnFrames(p, Pid(t, 0)) == if p.At(Pid(t, 0)).EnterCall? then [p.At(Pid(t, 0)).site] else []
  {
    var events := p.threads[t].events;
    FramesPrefix(events, 1);
    assert events[..1] == [] + [events[0]];
    FramesAppend([], events[0]);
    assert Frames([]).Some? && Frames([]).value == [];
    hide Frames, SpawnsOk;
  }

  /** What is on the stack besides the fork that the event is. */
  ghost function Calls(p: Program, e: Pid): seq<nat>
    requires Bracketed(p) && p.IsEvent(e)
  {
    var stack := CallstackOf(p, e);
    if p.At(e).Fork? && stack != [] then stack[..|stack| - 1] else stack
  }

  /**
   * From one event to the next the stack changes only by the call that is entered or left there, and by forks,
   * which are on the stack for themselves only.
   */
  lemma CallstackNext(p: Program, e: Pid)
    requires Bracketed(p) && p.IsEvent(e) && p.IsEvent(Pid(e.tid, e.eid + 1))
    ensures
      var next := Pid(e.tid, e.eid + 1);
      match p.At(next)
      case LeaveCall(site) => Calls(p, e) == CallstackOf(p, next) + [site]
      case _ => CallstackOf(p, next) == Calls(p, e) + OwnSite(p.At(next))
  {
    var next := Pid(e.tid, e.eid + 1);
    OwnFramesNext(p, e);
    var parent := if e.tid == 0 then [] else CallstackOf(p, p.threads[e.tid].spawn.value);
    CallsIs(p, e, parent);
    CallstackIs(p, next, parent);
    hide OwnFrames, CallstackOf, SpawnsOk, Calls;
    match p.At(next) {
      case LeaveCall(site) =>
        assert parent + (OwnFrames(p, next) + [site]) == (parent + OwnFrames(p, next)) + [site];
      case EnterCall(site) =>
        assert parent + (OwnFrames(p, e) + [site]) == (parent + OwnFrames(p, e)) + [site];
      case _ =>
    }
  }

  lemma CallsIs(p: Program, e: Pid, parent: seq<nat>)
    requires Bracketed(p) && p.IsEvent(e)
    requires parent == if e.tid == 0 then [] else CallstackOf(p, p.threads[e.tid].spawn.value)
    ensures Calls(p, e) == parent + OwnFrames(p, e)
  {
    CallstackIs(p, e, parent);
    hide OwnFrames, CallstackOf, SpawnsOk;
  }

  lemma OwnFramesNext(p: Program, e: Pid)
    requires Bracketed(p) && p.IsEvent(e) && p.IsEvent(Pid(e.tid, e.eid + 1))
    ensures
      var next := Pid(e.tid, e.eid + 1);
      match p.At(next)
      case EnterCall(site) => OwnFrames(p, next) == OwnFrames(p, e) + [site]
      case LeaveCall(site) => OwnFrames(p, e) == OwnFrames(p, next) + [site]
      case _ => OwnFrames(p, next) == OwnFrames(p, e)
  {
    var events := p.threads[e.tid].events;
    FramesPrefix(events, e.eid + 2);
    assert events[..e.eid + 2] == events[..e.eid + 1] + [events[e.eid + 1]];
    FramesAppend(events[..e.eid + 1], events[e.eid + 1]);
    hide Frames, SpawnsOk;
  }

  /** In every program that was built, call stacks can be computed. */
  lemma BuiltBracketed(p: Program, log: seq<Pid>)
    requires WellFormed(p.threads, log)
    ensures Bracketed(p)
  {
    hide ForksOk, ChainsOk, LogOk, Frames, SpawnsOk;
  }
}
