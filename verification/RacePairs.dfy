/** The shared objects and the enumeration of the pairs of accesses to check (src/Analysis/SharedMemory.cpp:104-131, src/RaceDetect.cpp:119-146). */
module RacePairs {
  import opened Sets
  import opened Traces
  import opened SharedMemories

  /** One call of the race check, for one object both events access. */
  datatype Check = Check(obj: nat, write: Pid, other: Pid)

  /**
   * How often a pair is to be checked for an object: events of different threads, the first a write,
   * the second a read, or a write of a later thread.
   */
  function Expected(p: Program, c: Check): nat {
    if c.write.tid == c.other.tid then 0 else
      Writes(p, c.write, c.obj) * (Reads(p, c.other, c.obj) + if c.write.tid < c.other.tid then Writes(p, c.other, c.obj) else 0)
  }

  ghost predicate IsShared(p: Program, obj: nat) {
    exists c: Check :: c.obj == obj && Expected(p, c) > 0
  }

  ghost predicate Accesses(p: Program, e: Pid, obj: nat) {
    p.IsEvent(e) && (p.At(e).Read? || p.At(e).Write?) && obj in p.At(e).mem
  }

  /** The pairs to check are those of different threads that access a common object, at least one of them writing. */
  lemma ExpectedPairs(p: Program, obj: nat, a: Pid, b: Pid)
    ensures Expected(p, Check(obj, a, b)) > 0 || Expected(p, Check(obj, b, a)) > 0 <==>
      a.tid != b.tid && Accesses(p, a, obj) && Accesses(p, b, obj) && (p.At(a).Write? || p.At(b).Write?)
    ensures !(Expected(p, Check(obj, a, b)) > 0 && Expected(p, Check(obj, b, a)) > 0)
  {
    Positive(Writes(p, a, obj), Reads(p, b, obj) + if a.tid < b.tid then Writes(p, b, obj) else 0);
    Positive(Writes(p, b, obj), Reads(p, a, obj) + if b.tid < a.tid then Writes(p, a, obj) else 0);
    MemberCounts(p, a, obj);
    MemberCounts(p, b, obj);
  }

  /** An event that names each object once is checked once for every common object. */
  lemma ExpectedOnce(p: Program, c: Check)
    requires forall e: Pid :: Writes(p, e, c.obj) <= 1 && Reads(p, e, c.obj) <= 1
    ensures Expected(p, c) <= 1
  {
    assert Reads(p, c.other, c.obj) + Writes(p, c.other, c.obj) <= 1;
    var w, o := Writes(p, c.write, c.obj), Reads(p, c.other, c.obj) + if c.write.tid < c.other.tid then Writes(p, c.other, c.obj) else 0;
    assert w * o <= 1 by {
      assert w == 0 || w == 1;
    }
  }

  lemma MemberCounts(p: Program, e: Pid, obj: nat)
    ensures Accesses(p, e, obj) <==> Reads(p, e, obj) + Writes(p, e, obj) > 0
  {
    if p.IsEvent(e) && (p.At(e).Read? || p.At(e).Write?) {
      assert obj in p.At(e).mem <==> obj in multiset(p.At(e).mem);
    }
  }

  lemma Positive(a: nat, b: nat)
    ensures a * b > 0 <==> a > 0 && b > 0
  {
    if a > 0 && b > 0 {
      assert a * b >= b;
    }
  }

  // ---- Shared objects ----------------------------------------------------------------------

  /** The test of `getSharedObjects` on the writers and the readers of an object. */
  predicate RowsShared(writers: map<nat, seq<Pid>>, readers: map<nat, seq<Pid>>) {
    || |writers| > 1
    || (|writers| == 1 && |readers| > 1)
    || (|writers| == 1 && |readers| == 1 && writers.Keys != readers.Keys)
  }

  lemma RowsSharedMeans(writers: map<nat, seq<Pid>>, readers: map<nat, seq<Pid>>)
    ensures RowsShared(writers, readers) <==> exists t, u :: t in writers && t != u && (u in readers || u in writers)
  {
    var W, R := writers.Keys, readers.Keys;
    SeveralKeys(W);
    SeveralKeys(R);
    assert forall t :: t in W <==> t in writers;
    assert forall t :: t in R <==> t in readers;
    if |W| == 1 {
      var t := OneKey(W);
      if |R| == 1 {
        var u := OneKey(R);
        assert W != R <==> u != t;
      } else if |R| == 0 {
        assert R == {};
      }
    } else if |W| == 0 {
      assert W == {};
    }
  }

  lemma SeveralKeys(W: set<nat>)
    ensures |W| > 1 <==> exists t, u :: t in W && u in W && t != u
  {
    if t, u :| t in W && u in W && t != u {
      SubsetSize({t, u}, W);
    } else if |W| > 1 {
      var t := Pick(W);
      var u := Pick(W - {t});
    }
  }

  lemma OneKey(W: set<nat>) returns (t: nat)
    requires |W| == 1
    ensures W == {t}
  {
    t := Pick(W);
    assert |W - {t}| == 0;
  }

  /** The threads listed for an object are those with an access. */
  lemma RowThreads(ids: map<nat, nat>, table: Table, obj: nat, t: nat)
    requires TableOk(ids, table) && obj in ids
    ensures t in Row(table, ids[obj]) <==> exists e: Pid :: e.tid == t && Count(ids, table, obj, e) > 0
  {
    var row := Row(table, ids[obj]);
    if t in row {
      var e := row[t][0];
      assert e in multiset(row[t]);
      assert Count(ids, table, obj, e) > 0;
    }
    forall e: Pid | e.tid == t && Count(ids, table, obj, e) > 0
      ensures t in row
    {
      assert e in multiset(Bucket(row, t));
    }
  }

  lemma SharedIff(p: Program, mem: SharedMemory, obj: nat)
    requires mem.Valid(p) && obj in mem.objIDs
    ensures RowsShared(Row(mem.objWrites, mem.objIDs[obj]), Row(mem.objReads, mem.objIDs[obj])) <==> IsShared(p, obj)
  {
    var W, R := Row(mem.objWrites, mem.objIDs[obj]), Row(mem.objReads, mem.objIDs[obj]);
    forall t: nat
      ensures t in W <==> exists e: Pid :: e.tid == t && Writes(p, e, obj) > 0
      ensures t in R <==> exists e: Pid :: e.tid == t && Reads(p, e, obj) > 0
    {
      RowThreads(mem.objIDs, mem.objWrites, obj, t);
      RowThreads(mem.objIDs, mem.objReads, obj, t);
    }
    RowsSharedMeans(W, R);
    hide RowsShared, Row, Writes, Reads, Count;
    SharedPairs(p, obj, W.Keys, R.Keys);
  }

  lemma SharedPairs(p: Program, obj: nat, W: set<nat>, R: set<nat>)
    requires forall t: nat :: t in W <==> exists e: Pid :: e.tid == t && Writes(p, e, obj) > 0
    requires forall t: nat :: t in R <==> exists e: Pid :: e.tid == t && Reads(p, e, obj) > 0
    ensures IsShared(p, obj) <==> exists t, u :: t in W && t != u && (u in R || u in W)
  {
    hide Writes, Reads;
    if t, u :| t in W && t != u && (u in R || u in W) {
      var w: Pid :| w.tid == t && Writes(p, w, obj) > 0;
      if u in R {
        var e: Pid :| e.tid == u && Reads(p, e, obj) > 0;
        Positive(Writes(p, w, obj), Reads(p, e, obj) + if w.tid < e.tid then Writes(p, e, obj) else 0);
        assert Expected(p, Check(obj, w, e)) > 0;
      } else {
        var e: Pid :| e.tid == u && Writes(p, e, obj) > 0;
        var c := if t < u then Check(obj, w, e) else Check(obj, e, w);
        Positive(Writes(p, c.write, obj), Reads(p, c.other, obj) + Writes(p, c.other, obj));
        assert Expected(p, c) > 0;
      }
    }
    if IsShared(p, obj) {
      var c: Check :| c.obj == obj && Expected(p, c) > 0;
      Positive(Writes(p, c.write, obj), Reads(p, c.other, obj) + if c.write.tid < c.other.tid then Writes(p, c.other, obj) else 0);
      assert c.write.tid in W;
      assert c.other.tid in R || c.other.tid in W;
    }
  }

  /** `getSharedObjects`: exactly the objects with a pair to check, each once. */
  method GetSharedObjects(ghost p: Program, mem: SharedMemory) returns (objs: seq<nat>)
    requires mem.Valid(p)
    ensures forall o :: o in objs <==> IsShared(p, o)
    ensures forall i, j :: 0 <= i < j < |objs| ==> objs[i] != objs[j]
    ensures forall o :: o in objs ==> o in mem.objIDs
  {
    objs := [];
    var todo := mem.objIDs.Keys;
    forall o | IsShared(p, o)
      ensures o in todo
    {
      Known(p, mem, o);
    }
    hide IsShared, RowsShared, mem.Valid;
    while todo != {}
      invariant todo <= mem.objIDs.Keys
      invariant forall o :: o in objs <==> IsShared(p, o) && o !in todo
      invariant forall o :: o in objs ==> o in mem.objIDs
      invariant forall i, j :: 0 <= i < j < |objs| ==> objs[i] != objs[j]
    {
      var obj :| obj in todo;
      todo := todo - {obj};
      SharedIff(p, mem, obj);
      if RowsShared(Row(mem.objWrites, mem.objIDs[obj]), Row(mem.objReads, mem.objIDs[obj])) {
        objs := objs + [obj];
      }
    }
  }

  lemma ExpectedWrites(p: Program, c: Check)
    requires Expected(p, c) > 0
    ensures Writes(p, c.write, c.obj) > 0
  {
    hide Writes, Reads;
  }

  lemma Known(p: Program, mem: SharedMemory, obj: nat)
    requires mem.Valid(p) && IsShared(p, obj)
    ensures obj in mem.objIDs
  {
    var c: Check :| c.obj == obj && Expected(p, c) > 0;
    ExpectedWrites(p, c);
    hide Expected, Writes, Reads;
    assert Count(mem.objIDs, mem.objWrites, obj, c.write) > 0;
  }

  // ---- Enumeration -------------------------------------------------------------------------

  /** The keys of an ordered map, in iteration order. */
  method InOrder(keys: set<nat>) returns (r: seq<nat>)
    ensures forall t :: t in r <==> t in keys
    ensures forall i, j :: 0 <= i < j < |r| ==> r[i] < r[j]
  {
    r := [];
    var todo := keys;
    while todo != {}
      invariant todo <= keys && forall t :: t in keys <==> t in r || t in todo
      invariant forall i, j :: 0 <= i < j < |r| ==> r[i] < r[j]
      invariant forall i, t :: 0 <= i < |r| && t in todo ==> r[i] < t
    {
      var least := Least(todo);
      todo := todo - {least};
      r := r + [least];
    }
  }

  method Least(keys: set<nat>) returns (r: nat)
    requires keys != {}
    ensures r in keys && forall t :: t in keys ==> r <= t
  {
    r :| r in keys;
    var todo := keys;
    while todo != {}
      invariant r in keys && forall t :: t in keys ==> t in todo || r <= t
    {
      var t :| t in todo;
      todo := todo - {t};
      if t < r {
        r := t;
      }
    }
  }

  /** Every write of one list against every access of another one. */
  method CheckLists(obj: nat, ws: seq<Pid>, others: seq<Pid>) returns (checks: seq<Check>)
    ensures forall c: Check :: multiset(checks)[c] == if c.obj == obj then multiset(ws)[c.write] * multiset(others)[c.other] else 0
  {
    checks := [];
    var i := 0;
    while i < |ws|
      invariant i <= |ws|
      invariant forall c: Check :: multiset(checks)[c] == if c.obj == obj then multiset(ws[..i])[c.write] * multiset(others)[c.other] else 0
    {
      assert ws[..i + 1] == ws[..i] + [ws[i]];
      var j := 0;
      ghost var before := multiset(checks);
      while j < |others|
        invariant j <= |others|
        invariant forall c: Check :: multiset(checks)[c] == before[c] + if c.obj == obj && c.write == ws[i] then multiset(others[..j])[c.other] else 0
      {
        assert others[..j + 1] == others[..j] + [others[j]];
        checks := checks + [Check(obj, ws[i], others[j])];
        j := j + 1;
      }
      assert others[..j] == others;
      forall c: Check | c.obj == obj
        ensures multiset(checks)[c] == multiset(ws[..i + 1])[c.write] * multiset(others)[c.other]
      {
        Distribute(multiset(others)[c.other], multiset(ws[..i])[c.write], if c.write == ws[i] then 1 else 0);
      }
      i := i + 1;
    }
    assert ws[..i] == ws;
  }

  lemma Distribute(a: nat, b: nat, c: nat)
    ensures (b + c) * a == b * a + c * a && a * (b + c) == a * b + a * c
  {
  }

  /** The accesses of `o` in the buckets of the threads `keys[from..to]`, except those of thread `skip`. */
  ghost function Listed(row: map<nat, seq<Pid>>, keys: seq<nat>, skip: nat, o: Pid): nat {
    if o.tid in keys && o.tid != skip then multiset(Bucket(row, o.tid))[o] else 0
  }

  lemma ListedStep(row: map<nat, seq<Pid>>, keys: seq<nat>, k: nat, skip: nat, o: Pid)
    requires RowOk(row) && k < |keys| && keys[k] in row && forall i, j :: 0 <= i < j < |keys| ==> keys[i] < keys[j]
    ensures Listed(row, keys[..k + 1], skip, o) == Listed(row, keys[..k], skip, o) + if keys[k] == skip then 0 else multiset(row[keys[k]])[o]
  {
    if o in multiset(row[keys[k]]) {
      assert o.tid == keys[k];
    }
    assert keys[..k + 1] == keys[..k] + [keys[k]];
  }

  /** The writes `ws` against the buckets of `keys`, in order, except the bucket of thread `skip`. */
  method CheckRow(obj: nat, ws: seq<Pid>, row: map<nat, seq<Pid>>, keys: seq<nat>, skip: nat) returns (checks: seq<Check>)
    requires RowOk(row) && (forall t :: t in keys ==> t in row) && forall i, j :: 0 <= i < j < |keys| ==> keys[i] < keys[j]
    ensures forall c: Check :: multiset(checks)[c] == if c.obj == obj then multiset(ws)[c.write] * Listed(row, keys, skip, c.other) else 0
  {
    hide RowOk, Listed;
    checks := [];
    forall o
      ensures Listed(row, keys[..0], skip, o) == 0
    {
      ListedNone(row, skip, o);
    }
    var k := 0;
    while k < |keys|
      invariant k <= |keys|
      invariant forall c: Check :: multiset(checks)[c] == if c.obj == obj then multiset(ws)[c.write] * Listed(row, keys[..k], skip, c.other) else 0
    {
      ghost var before := checks;
      assert keys[k] in keys;
      if keys[k] != skip {
        var more := CheckLists(obj, ws, row[keys[k]]);
        checks := checks + more;
      }
      forall c: Check | c.obj == obj
        ensures multiset(checks)[c] == multiset(ws)[c.write] * Listed(row, keys[..k + 1], skip, c.other)
      {
        ListedStep(row, keys, k, skip, c.other);
        Distribute(multiset(ws)[c.write], Listed(row, keys[..k], skip, c.other), if keys[k] == skip then 0 else multiset(row[keys[k]])[c.other]);
      }
      k := k + 1;
    }
    assert keys[..k] == keys;
  }

  lemma ListedNone(row: map<nat, seq<Pid>>, skip: nat, o: Pid)
    ensures Listed(row, [], skip, o) == 0
  {
  }

  /** How often a pair is to be checked, read off the rows of one object. */
  ghost function RowExpected(W: map<nat, seq<Pid>>, R: map<nat, seq<Pid>>, w: Pid, o: Pid): nat {
    if w.tid == o.tid then 0 else
      multiset(Bucket(W, w.tid))[w] * (multiset(Bucket(R, o.tid))[o] + if w.tid < o.tid then multiset(Bucket(W, o.tid))[o] else 0)
  }

  /** The writes of one thread: reads of other threads, then writes of later threads. */
  method CheckWriter(obj: nat, W: map<nat, seq<Pid>>, R: map<nat, seq<Pid>>, wtids: seq<nat>, rtids: seq<nat>, k: nat) returns (checks: seq<Check>)
    requires RowOk(W) && RowOk(R) && k < |wtids| && (forall t :: t in wtids <==> t in W) && (forall t :: t in rtids <==> t in R)
    requires forall i, j :: 0 <= i < j < |wtids| ==> wtids[i] < wtids[j]
    requires forall i, j :: 0 <= i < j < |rtids| ==> rtids[i] < rtids[j]
    ensures forall c: Check :: multiset(checks)[c] == if c.obj == obj && c.write.tid == wtids[k] then RowExpected(W, R, c.write, c.other) else 0
  {
    var wtid := wtids[k];
    assert wtid in wtids;
    hide RowOk, RowExpected, Listed;
    var ws := W[wtid];
    checks := CheckRow(obj, ws, R, rtids, wtid);
    ghost var first := checks;
    var more := CheckRow(obj, ws, W, wtids[k + 1..], wtid);
    checks := checks + more;
    forall c: Check
      ensures multiset(checks)[c] == if c.obj == obj && c.write.tid == wtids[k] then RowExpected(W, R, c.write, c.other) else 0
    {
      assert multiset(checks)[c] == multiset(first)[c] + multiset(more)[c];
      WriterTotal(W, R, wtids, rtids, k, c.write, c.other);
    }
  }

  lemma WriterTotal(W: map<nat, seq<Pid>>, R: map<nat, seq<Pid>>, wtids: seq<nat>, rtids: seq<nat>, k: nat, w: Pid, o: Pid)
    requires RowOk(W) && k < |wtids| && wtids[k] in W && (forall t :: t in wtids <==> t in W) && (forall t :: t in rtids <==> t in R)
    requires forall i, j :: 0 <= i < j < |wtids| ==> wtids[i] < wtids[j]
    ensures multiset(W[wtids[k]])[w] * Listed(R, rtids, wtids[k], o) + multiset(W[wtids[k]])[w] * Listed(W, wtids[k + 1..], wtids[k], o)
         == if w.tid == wtids[k] then RowExpected(W, R, w, o) else 0
  {
    hide RowOk, RowExpected, Listed;
    WriterCount(W, R, wtids, rtids, k, w, o);
    Distribute(multiset(W[wtids[k]])[w], Listed(R, rtids, wtids[k], o), Listed(W, wtids[k + 1..], wtids[k], o));
  }

  lemma WriterCount(W: map<nat, seq<Pid>>, R: map<nat, seq<Pid>>, wtids: seq<nat>, rtids: seq<nat>, k: nat, w: Pid, o: Pid)
    requires RowOk(W) && k < |wtids| && wtids[k] in W && (forall t :: t in wtids <==> t in W) && (forall t :: t in rtids <==> t in R)
    requires forall i, j :: 0 <= i < j < |wtids| ==> wtids[i] < wtids[j]
    ensures multiset(W[wtids[k]])[w] * (Listed(R, rtids, wtids[k], o) + Listed(W, wtids[k + 1..], wtids[k], o))
         == if w.tid == wtids[k] then RowExpected(W, R, w, o) else 0
  {
    if w in multiset(W[wtids[k]]) {
      assert w.tid == wtids[k];
    }
    assert o.tid in wtids[k + 1..] <==> o.tid in W && wtids[k] < o.tid by {
      if o.tid in W && wtids[k] < o.tid {
        var i :| 0 <= i < |wtids| && wtids[i] == o.tid;
        assert wtids[k + 1..][i - k - 1] == o.tid;
      }
    }
  }

  /** All pairs for one object. */
  method CheckObject(obj: nat, W: map<nat, seq<Pid>>, R: map<nat, seq<Pid>>) returns (checks: seq<Check>)
    requires RowOk(W) && RowOk(R)
    ensures forall c: Check :: multiset(checks)[c] == if c.obj == obj then RowExpected(W, R, c.write, c.other) else 0
  {
    hide RowOk, RowExpected;
    var wtids := InOrder(W.Keys);
    var rtids := InOrder(R.Keys);
    checks := [];
    var k := 0;
    while k < |wtids|
      invariant k <= |wtids|
      invariant forall c: Check :: multiset(checks)[c] == if c.obj == obj && c.write.tid in wtids[..k] then RowExpected(W, R, c.write, c.other) else 0
    {
      assert wtids[..k + 1] == wtids[..k] + [wtids[k]];
      assert wtids[k] !in wtids[..k];
      var more := CheckWriter(obj, W, R, wtids, rtids, k);
      checks := checks + more;
      k := k + 1;
    }
    assert wtids[..k] == wtids;
    forall c: Check | c.write.tid !in wtids
      ensures RowExpected(W, R, c.write, c.other) == 0
    {
      NoWriter(W, R, c.write, c.other);
    }
  }

  lemma NoWriter(W: map<nat, seq<Pid>>, R: map<nat, seq<Pid>>, w: Pid, o: Pid)
    requires w.tid !in W
    ensures RowExpected(W, R, w, o) == 0
  {
  }

  /** All pairs for one object that has an id. */
  method CheckKnown(ghost p: Program, mem: SharedMemory, obj: nat) returns (checks: seq<Check>)
    requires mem.Valid(p) && obj in mem.objIDs
    ensures forall c: Check :: multiset(checks)[c] == if c.obj == obj then Expected(p, c) else 0
  {
    hide Expected, RowExpected, RowOk, Row, mem.Valid;
    var id := mem.objIDs[obj];
    var W, R := Row(mem.objWrites, id), Row(mem.objReads, id);
    RowsOk(p, mem, obj);
    checks := CheckObject(obj, W, R);
    forall c: Check | c.obj == obj
      ensures Expected(p, c) == RowExpected(W, R, c.write, c.other)
    {
      ExpectedRow(p, mem, c);
    }
  }

  /** The loops of `main` that call the race check: every pair exactly as often as expected, none left out by the filter. */
  method CheckAll(ghost p: Program, mem: SharedMemory) returns (checks: seq<Check>)
    requires mem.Valid(p)
    ensures forall c: Check :: multiset(checks)[c] == Expected(p, c)
  {
    var objs := GetSharedObjects(p, mem);
    forall c: Check | c.obj !in objs
      ensures Expected(p, c) == 0
    {
      assert !IsShared(p, c.obj);
    }
    hide Expected, RowExpected, IsShared, RowOk, Row, mem.Valid;
    checks := [];
    var k := 0;
    while k < |objs|
      invariant k <= |objs|
      invariant forall c: Check :: multiset(checks)[c] == if c.obj in objs[..k] then Expected(p, c) else 0
    {
      assert objs[..k + 1] == objs[..k] + [objs[k]];
      assert objs[k] !in objs[..k];
      assert objs[k] in objs;
      var more := CheckKnown(p, mem, objs[k]);
      checks := checks + more;
      k := k + 1;
    }
    assert objs[..k] == objs;
  }

  lemma RowsOk(p: Program, mem: SharedMemory, obj: nat)
    requires mem.Valid(p) && obj in mem.objIDs
    ensures RowOk(Row(mem.objWrites, mem.objIDs[obj])) && RowOk(Row(mem.objReads, mem.objIDs[obj]))
  {
  }

  lemma ExpectedRow(p: Program, mem: SharedMemory, c: Check)
    requires mem.Valid(p) && c.obj in mem.objIDs
    ensures Expected(p, c) == RowExpected(Row(mem.objWrites, mem.objIDs[c.obj]), Row(mem.objReads, mem.objIDs[c.obj]), c.write, c.other)
  {
    assert Count(mem.objIDs, mem.objWrites, c.obj, c.write) == Writes(p, c.write, c.obj);
    assert Count(mem.objIDs, mem.objWrites, c.obj, c.other) == Writes(p, c.other, c.obj);
    assert Count(mem.objIDs, mem.objReads, c.obj, c.other) == Reads(p, c.other, c.obj);
  }
}
