/** Thread traces: the events of every thread and the fork each thread was spawned by. */
module Traces {
  import opened Options

  /** `EventPID`: an event named by its thread and its position there. */
  datatype Pid = Pid(tid: nat, eid: nat) {
    predicate Less(other: Pid) {
      tid < other.tid || (tid == other.tid && eid < other.eid)
    }
  }

  datatype Event =
    | Read(mem: seq<nat>)
    | Write(mem: seq<nat>)
    | Fork(site: nat, entry: nat)
    | Join
    | Lock(lock: nat)
    | Unlock(lock: nat)
    | Barrier(inst: nat)
    | EnterCall(site: nat)
    | LeaveCall(site: nat)
    | ExternCall(site: nat)

  datatype Thread = Thread(spawn: Option<Pid>, events: seq<Event>)

  /** `joined` gives the thread that a join event was matched with, where it was matched at all. */
  datatype Program = Program(threads: seq<Thread>, joined: map<Pid, nat>) {

    predicate IsEvent(e: Pid) {
      e.tid < |threads| && e.eid < |threads[e.tid].events|
    }

    function At(e: Pid): Event
      requires IsEvent(e)
    {
      threads[e.tid].events[e.eid]
    }
  }
}
