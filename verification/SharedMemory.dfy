/** Which threads read and write which objects (src/Analysis/SharedMemory.cpp:15-103). */
module SharedMemories {
  import opened Traces

  /** How often `e` reads `obj`: its accessed memory is a multiset. */
  function Reads(p: Program, e: Pid, obj: nat): nat {
    if p.IsEvent(e) && p.At(e).Read? then multiset(p.At(e).mem)[obj] else 0
  }

  function Writes(p: Program, e: Pid, obj: nat): nat {
    if p.IsEvent(e) && p.At(e).Write? then multiset(p.At(e).mem)[obj] else 0
  }

  /** Accesses by object id and thread. */
  type Table = map<nat, map<nat, seq<Pid>>>

  function Row(table: Table, id: nat): map<nat, seq<Pid>> {
    if id in table then table[id] else map[]
  }

  function Bucket(row: map<nat, seq<Pid>>, t: nat): seq<Pid> {
    if t in row then row[t] else []
  }

  function Appended(table: Table, id: nat, e: Pid): Table {
    var row := Row(table, id);
    table[id := row[e.tid := Bucket(row, e.tid) + [e]]]
  }

  /** How often `e` is recorded for `obj`. */
  ghost function Count(ids: map<nat, nat>, table: Table, obj: nat, e: Pid): nat {
    if obj in ids then multiset(Bucket(Row(table, ids[obj]), e.tid))[e] else 0
  }

  /** Only threads with accesses are listed, each with its own accesses. */
  ghost predicate RowOk(row: map<nat, seq<Pid>>) {
    && (forall t :: t in row ==> row[t] != [])
    && (forall t, i :: t in row && 0 <= i < |row[t]| ==> row[t][i].tid == t)
  }

  ghost predicate TableOk(ids: map<nat, nat>, table: Table) {
    forall id :: id in table ==> id < |ids| && RowOk(table[id])
  }

  /** Object ids are distinct and below the number of objects. */
  ghost predicate IdsOk(ids: map<nat, nat>) {
    && (forall o :: o in ids ==> ids[o] < |ids|)
    && (forall o, q :: o in ids && q in ids && ids[o] == ids[q] ==> o == q)
  }

  lemma AppendedOk(ids: map<nat, nat>, table: Table, id: nat, e: Pid)
    requires IdsOk(ids) && TableOk(ids, table) && id < |ids|
    ensures TableOk(ids, Appended(table, id, e))
  {
  }

  lemma AppendedCount(ids: map<nat, nat>, table: Table, obj: nat, e: Pid, o: nat, f: Pid)
    requires IdsOk(ids) && obj in ids
    ensures Count(ids, Appended(table, ids[obj], e), o, f) == Count(ids, table, o, f) + if o == obj && f == e then 1 else 0
  {
  }

  class SharedMemory {
    var objIDs: map<nat, nat>
    var objReads: Table
    var objWrites: Table

    ghost predicate Shaped()
      reads this
    {
      IdsOk(objIDs) && TableOk(objIDs, objReads) && TableOk(objIDs, objWrites)
    }

    /** All accesses are recorded. */
    ghost predicate Valid(p: Program)
      reads this
    {
      Shaped() && forall o, e :: Count(objIDs, objReads, o, e) == Reads(p, e, o) && Count(objIDs, objWrites, o, e) == Writes(p, e, o)
    }

    /** The id of an object, a new one if it has none. */
    method GetObjId(obj: nat) returns (id: nat)
      requires Shaped()
      modifies `objIDs
      ensures Shaped() && obj in objIDs && objIDs[obj] == id
      ensures forall o, e :: Count(objIDs, objReads, o, e) == old(Count(objIDs, objReads, o, e))
      ensures forall o, e :: Count(objIDs, objWrites, o, e) == old(Count(objIDs, objWrites, o, e))
    {
      if obj in objIDs {
        return objIDs[obj];
      }
      id := |objIDs|;
      objIDs := objIDs[obj := id];
      assert objIDs.Keys == old(objIDs).Keys + {obj};
      assert |objIDs| == |old(objIDs)| + 1;
    }

    /** One access of `e` to each object of `mem`, recorded as a write or as a read. */
    method Record(e: Pid, mem: seq<nat>, write: bool)
      requires Shaped()
      modifies this
      ensures Shaped()
      ensures forall o, f :: Count(objIDs, objReads, o, f) == old(Count(objIDs, objReads, o, f)) + if f == e && !write then multiset(mem)[o] else 0
      ensures forall o, f :: Count(objIDs, objWrites, o, f) == old(Count(objIDs, objWrites, o, f)) + if f == e && write then multiset(mem)[o] else 0
    {
      hide IdsOk, TableOk, Count, Appended;
      var k := 0;
      while k < |mem|
        invariant k <= |mem| && Shaped()
        invariant forall o, f :: Count(objIDs, objReads, o, f) == old(Count(objIDs, objReads, o, f)) + if f == e && !write then multiset(mem[..k])[o] else 0
        invariant forall o, f :: Count(objIDs, objWrites, o, f) == old(Count(objIDs, objWrites, o, f)) + if f == e && write then multiset(mem[..k])[o] else 0
      {
        assert mem[..k + 1] == mem[..k] + [mem[k]];
        var id := GetObjId(mem[k]);
        BelowSize(objIDs, mem[k]);
        if write {
          AppendedOk(objIDs, objWrites, id, e);
          AllAppendedCounts(objIDs, objWrites, mem[k], e);
          objWrites := Appended(objWrites, id, e);
        } else {
          AppendedOk(objIDs, objReads, id, e);
          AllAppendedCounts(objIDs, objReads, mem[k], e);
          objReads := Appended(objReads, id, e);
        }
        k := k + 1;
      }
      assert mem[..k] == mem;
    }

    /** Exactly the accesses of the events before `at` are recorded. */
    ghost predicate Recorded(p: Program, at: Pid)
      reads this
    {
      && Shaped()
      && forall o, e: Pid :: Count(objIDs, objReads, o, e) == (if e.Less(at) then Reads(p, e, o) else 0)
                          && Count(objIDs, objWrites, o, e) == (if e.Less(at) then Writes(p, e, o) else 0)
    }

    /** The constructor: all events of all threads. */
    constructor (p: Program)
      ensures Valid(p)
    {
      objIDs, objReads, objWrites := map[], map[], map[];
      new;
      assert Recorded(p, Pid(0, 0));
      hide TableOk, IdsOk, Count;
      RecordAll(p);
    }

    method RecordAll(p: Program)
      requires Recorded(p, Pid(0, 0))
      modifies this
      ensures Valid(p)
    {
      hide TableOk, IdsOk, Count;
      var t := 0;
      while t < |p.threads|
        invariant t <= |p.threads| && Recorded(p, Pid(t, 0))
      {
        var events := p.threads[t].events;
        var i := 0;
        while i < |events|
          invariant i <= |events| && Recorded(p, Pid(t, i))
        {
          var e := Pid(t, i);
          NextEvent(t, i);
          match events[i] {
            case Read(mem) => Record(e, mem, false);
            case Write(mem) => Record(e, mem, true);
            case _ =>
          }
          i := i + 1;
        }
        t := t + 1;
      }
    }
  }

  lemma NextEvent(t: nat, i: nat)
    ensures forall d: Pid :: d.Less(Pid(t, i + 1)) <==> d.Less(Pid(t, i)) || d == Pid(t, i)
  {
    forall d: Pid
      ensures d.Less(Pid(t, i + 1)) <==> d.Less(Pid(t, i)) || d == Pid(t, i)
    {
      assert d == Pid(d.tid, d.eid);
    }
  }

  lemma BelowSize(ids: map<nat, nat>, o: nat)
    requires IdsOk(ids) && o in ids
    ensures ids[o] < |ids|
  {
  }

  lemma AllAppendedCounts(ids: map<nat, nat>, table: Table, obj: nat, e: Pid)
    requires IdsOk(ids) && obj in ids
    ensures forall o, f :: Count(ids, Appended(table, ids[obj], e), o, f) == Count(ids, table, o, f) + if o == obj && f == e then 1 else 0
  {
    forall o, f
      ensures Count(ids, Appended(table, ids[obj], e), o, f) == Count(ids, table, o, f) + if o == obj && f == e then 1 else 0
    {
      AppendedCount(ids, table, obj, e, o, f);
    }
  }
}
