/**
 * Splitting `getelementptr` instructions at their variable indices (src/PreProcessing/Passes/CanonicalizeGEPPass.cpp:55-137),
 * and the step size of the instructions that result (Layout/Util.cpp:29-55).
 */
module GepSplitting {
  import opened Options
  import opened Layouts

  /** An integer constant, an undefined value (a constant too, but not an integer constant), or a variable. */
  datatype Index = Const(v: int) | Undef(id: nat) | Var(id: nat)

  const Zero := Const(0)

  /** What variables and undefined values stand for. */
  datatype Env = Env(vars: nat -> int, undefs: nat -> int) {
    function Val(i: Index): int {
      match i
      case Const(v) => v
      case Undef(k) => undefs(k)
      case Var(k) => vars(k)
    }
  }

  /** An address relative to the base pointer, and the type found there. */
  datatype Place = Place(off: int, ty: Ty)

  function FieldAt(fs: Fields, i: int): Option<Place> {
    if fs.NoField? || i < 0 then None else if i == 0 then Some(Place(fs.off, fs.ty)) else FieldAt(fs.rest, i - 1)
  }

  /** One index into an aggregate; struct fields are selected by integer constants. */
  function Select(ty: Ty, i: Index, env: Env): Option<Place> {
    match ty
    case Arr(_, e) => Some(Place(env.Val(i) * Size(e), e))
    case Struct(fs, _) => if i.Const? then FieldAt(fs, i.v) else None
    case _ => None
  }

  function Descend(at: Place, idxs: seq<Index>, env: Env): Option<Place>
    decreases |idxs|
  {
    if idxs == [] then Some(at) else
      var step := Select(at.ty, idxs[0], env);
      if step.None? then None else Descend(Place(at.off + step.value.off, step.value.ty), idxs[1..], env)
  }

  /** The meaning of one `getelementptr`: the first index steps over whole objects, the others go into them. */
  function Gep(at: Place, idxs: seq<Index>, env: Env): Option<Place> {
    if idxs == [] then None else Descend(Place(at.off + env.Val(idxs[0]) * Size(at.ty), at.ty), idxs[1..], env)
  }

  /** The meaning of a chain of them, each applied to the pointer that the one before computed. */
  function Chain(at: Place, geps: seq<seq<Index>>, env: Env): Option<Place>
    decreases |geps|
  {
    if geps == [] then Some(at) else
      var next := Gep(at, geps[0], env);
      if next.None? then None else Chain(next.value, geps[1..], env)
  }

  predicate AllInts(g: seq<Index>) {
    forall i :: 0 <= i < |g| ==> g[i].Const?
  }

  // ---- The pass ----------------------------------------------------------------------------

  /** What is emitted for the indices `rest` when the constants `cons` are waiting. */
  ghost function Emitted(cons: seq<Index>, rest: seq<Index>): seq<seq<Index>>
    decreases |rest|
  {
    if rest == [] then Flush(cons)
    else if rest[0].Var? then Flush(cons) + [[Zero, rest[0]]] + Emitted([Zero], rest[1..])
    else Emitted(cons + [rest[0]], rest[1..])
  }

  ghost function Flush(cons: seq<Index>): seq<seq<Index>> {
    if |cons| != 1 then [cons] else []
  }

  /** What the pass emits: a first index that is not zero gets an instruction of its own. */
  ghost function Split(idxs: seq<Index>): seq<seq<Index>> {
    if idxs == [] || AllInts(idxs) then [idxs]
    else if idxs[0] == Zero then Emitted([Zero], idxs[1..])
    else [[idxs[0]]] + Emitted([Zero], idxs[1..])
  }

  /** The loop of `splitVariableGEP` for one instruction. */
  method SplitVariableGep(idxs: seq<Index>) returns (geps: seq<seq<Index>>)
    requires idxs != []
    ensures geps == Split(idxs)
    ensures forall at: Place, env: Env :: Chain(at, geps, env) == Gep(at, idxs, env)
    ensures forall g :: g in geps && HasVar(g) ==> VarForm(g)
  {
    forall at: Place, env: Env
      ensures Chain(at, Split(idxs), env) == Gep(at, idxs, env)
    {
      SplitMeans(at, idxs, env);
    }
    SplitForms(idxs);
    hide Chain, Gep, HasVar, VarForm;
    if AllInts(idxs) {
      return [idxs];
    }
    geps := [];
    var consIndices: seq<Index> := [];
    var k := 0;
    if idxs[0].Var? {
      geps := [[idxs[0]]];
      consIndices := [Zero];
      k := 1;
    } else if idxs[0] != Zero {
      geps := [[idxs[0]]];
      consIndices := [Zero];
      k := 1;
    }
    SplitStart(idxs);
    hide Split, Emitted, AllInts;
    while k < |idxs|
      invariant k <= |idxs| && geps + Emitted(consIndices, idxs[k..]) == Split(idxs)
      invariant consIndices == [] ==> k == 0 && idxs[0] == Zero
      invariant consIndices != [] ==> consIndices[0] == Zero
    {
      var op := idxs[k];
      EmittedStep(consIndices, idxs, k);
      ghost var before := geps;
      if !op.Var? {
        consIndices := consIndices + [op];
      } else {
        ghost var flushed := Flush(consIndices);
        if |consIndices| != 1 {
          geps := geps + [consIndices];
        }
        assert geps == before + flushed;
        geps := geps + [[Zero, op]];
        consIndices := [Zero];
        Regroup(before, flushed, [[Zero, op]], Emitted([Zero], idxs[k + 1..]));
      }
      k := k + 1;
    }
    EmittedEnd(consIndices, idxs);
    if |consIndices| != 1 {
      geps := geps + [consIndices];
    } else {
      assert consIndices[0] == Zero;
    }
  }

  lemma SplitStart(idxs: seq<Index>)
    requires idxs != [] && !AllInts(idxs)
    ensures idxs[0] == Zero ==> [] + Emitted([], idxs[0..]) == Split(idxs)
    ensures idxs[0] != Zero ==> [[idxs[0]]] + Emitted([Zero], idxs[1..]) == Split(idxs)
  {
    assert idxs[0..] == idxs && [] + [idxs[0]] == [idxs[0]];
  }

  lemma EmittedStep(cons: seq<Index>, idxs: seq<Index>, k: nat)
    requires k < |idxs|
    ensures Emitted(cons, idxs[k..]) ==
      if idxs[k].Var? then Flush(cons) + [[Zero, idxs[k]]] + Emitted([Zero], idxs[k + 1..]) else Emitted(cons + [idxs[k]], idxs[k + 1..])
  {
    assert idxs[k..][0] == idxs[k] && idxs[k..][1..] == idxs[k + 1..];
  }

  lemma Regroup(a: seq<seq<Index>>, b: seq<seq<Index>>, c: seq<seq<Index>>, d: seq<seq<Index>>)
    ensures a + (b + c + d) == a + b + c + d
  {
  }

  lemma EmittedEnd(cons: seq<Index>, idxs: seq<Index>)
    ensures Emitted(cons, idxs[|idxs|..]) == Flush(cons)
  {
  }

  // ---- Addresses ---------------------------------------------------------------------------

  lemma {:induction false} DescendAppend(at: Place, xs: seq<Index>, ys: seq<Index>, env: Env)
    ensures Descend(at, xs + ys, env) ==
      var mid := Descend(at, xs, env);
      if mid.None? then None else Descend(mid.value, ys, env)
    decreases |xs|
  {
    if xs == [] {
      assert xs + ys == ys;
    } else {
      assert (xs + ys)[1..] == xs[1..] + ys;
      var step := Select(at.ty, xs[0], env);
      if step.Some? {
        DescendAppend(Place(at.off + step.value.off, step.value.ty), xs[1..], ys, env);
      }
    }
  }

  /** Indices can be cut anywhere after the first one; the rest continues with a zero in front. */
  lemma GepCut(at: Place, xs: seq<Index>, ys: seq<Index>, env: Env)
    requires xs != []
    ensures Gep(at, xs + ys, env) ==
      var mid := Gep(at, xs, env);
      if mid.None? then None else Gep(mid.value, [Zero] + ys, env)
  {
    assert (xs + ys)[1..] == xs[1..] + ys;
    DescendAppend(Place(at.off + env.Val(xs[0]) * Size(at.ty), at.ty), xs[1..], ys, env);
    assert ([Zero] + ys)[1..] == ys;
  }

  lemma GepNothing(at: Place, env: Env)
    ensures Gep(at, [Zero], env) == Some(at)
  {
    assert [Zero][1..] == [];
  }

  lemma {:induction false} ChainAppend(at: Place, xs: seq<seq<Index>>, ys: seq<seq<Index>>, env: Env)
    ensures Chain(at, xs + ys, env) ==
      var mid := Chain(at, xs, env);
      if mid.None? then None else Chain(mid.value, ys, env)
    decreases |xs|
  {
    if xs == [] {
      assert xs + ys == ys;
    } else {
      assert (xs + ys)[1..] == xs[1..] + ys;
      var next := Gep(at, xs[0], env);
      if next.Some? {
        ChainAppend(next.value, xs[1..], ys, env);
      }
    }
  }

  lemma ChainOne(at: Place, g: seq<Index>, env: Env)
    ensures Chain(at, [g], env) == Gep(at, g, env)
  {
    assert [g][1..] == [];
  }

  /** Emitting the waiting constants, or nothing if only a zero waits, has the same meaning. */
  lemma FlushMeans(at: Place, cons: seq<Index>, env: Env)
    requires cons != [] && cons[0] == Zero
    ensures Chain(at, Flush(cons), env) == Gep(at, cons, env)
  {
    if |cons| != 1 {
      ChainOne(at, cons, env);
    } else {
      assert cons == [Zero];
      GepNothing(at, env);
    }
  }

  lemma {:induction false} EmittedMeans(at: Place, cons: seq<Index>, rest: seq<Index>, env: Env)
    requires cons != [] && cons[0] == Zero
    ensures Chain(at, Emitted(cons, rest), env) == Gep(at, cons + rest, env)
    decreases |rest|
  {
    FlushMeans(at, cons, env);
    if rest == [] {
      assert cons + rest == cons;
    } else if rest[0].Var? {
      var v, tail := [[Zero, rest[0]]], Emitted([Zero], rest[1..]);
      assert Emitted(cons, rest) == Flush(cons) + (v + tail);
      ChainAppend(at, Flush(cons), v + tail, env);
      GepCut(at, cons, rest, env);
      var mid := Gep(at, cons, env);
      if mid.Some? {
        ChainAppend(mid.value, v, tail, env);
        ChainOne(mid.value, [Zero, rest[0]], env);
        assert [Zero] + rest == [Zero, rest[0]] + rest[1..];
        GepCut(mid.value, [Zero, rest[0]], rest[1..], env);
        var next := Gep(mid.value, [Zero, rest[0]], env);
        if next.Some? {
          EmittedMeans(next.value, [Zero], rest[1..], env);
        }
      }
    } else {
      assert (cons + [rest[0]]) + rest[1..] == cons + rest;
      EmittedMeans(at, cons + [rest[0]], rest[1..], env);
    }
  }

  /** The chain computes the address of the instruction it replaces, for every type, index list and valuation. */
  lemma SplitMeans(at: Place, idxs: seq<Index>, env: Env)
    requires idxs != []
    ensures Chain(at, Split(idxs), env) == Gep(at, idxs, env)
  {
    if AllInts(idxs) {
      ChainOne(at, idxs, env);
    } else if idxs[0] == Zero {
      EmittedMeans(at, [Zero], idxs[1..], env);
      assert [Zero] + idxs[1..] == idxs;
    } else {
      var first := [idxs[0]];
      ChainAppend(at, [first], Emitted([Zero], idxs[1..]), env);
      ChainOne(at, first, env);
      assert first + idxs[1..] == idxs;
      GepCut(at, first, idxs[1..], env);
      var mid := Gep(at, first, env);
      if mid.Some? {
        EmittedMeans(mid.value, [Zero], idxs[1..], env);
      }
    }
  }

  // ---- The form of what is emitted ---------------------------------------------------------

  predicate HasVar(g: seq<Index>) {
    exists i :: 0 <= i < |g| && g[i].Var?
  }

  predicate HasUndef(g: seq<Index>) {
    exists i :: 0 <= i < |g| && g[i].Undef?
  }

  /** `{v}` or `{0, v}`. */
  predicate VarForm(g: seq<Index>) {
    (|g| == 1 && g[0].Var?) || (|g| == 2 && g[0] == Zero && g[1].Var?)
  }

  lemma {:induction false} EmittedForms(cons: seq<Index>, rest: seq<Index>)
    requires !HasVar(cons)
    ensures forall g :: g in Emitted(cons, rest) && HasVar(g) ==> VarForm(g)
    decreases |rest|
  {
    if rest != [] {
      if rest[0].Var? {
        EmittedForms([Zero], rest[1..]);
      } else {
        EmittedForms(cons + [rest[0]], rest[1..]);
      }
    }
  }

  /** Every emitted instruction with a variable index has one of the two forms. */
  lemma SplitForms(idxs: seq<Index>)
    ensures forall g :: g in Split(idxs) && HasVar(g) ==> VarForm(g)
  {
    if idxs != [] && !AllInts(idxs) {
      EmittedForms([Zero], idxs[1..]);
    }
  }

  /** What `getGEPStepSize` asserts of its argument, which is not made of integer constants only. */
  predicate StepForm(g: seq<Index>) {
    && (|g| == 1 || |g| == 2 || (|g| == 3 && g[2].Undef?))
    && exists k :: 0 <= k < |g| && !g[k].Const? && forall i :: 0 <= i < k ==> g[i] == Zero
  }

  /** The type that index `k` reaches, if all indices before are zeros. */
  function Indexed(ty: Ty, k: nat): Option<Ty> {
    if k == 0 then Some(ty) else
      match ty
      case Arr(_, e) => Indexed(e, k - 1)
      case Struct(fs, _) => if fs.Field? && k > 1 then Indexed(fs.ty, k - 1) else None
      case _ => None
  }

  /** `getGEPStepSize`: the size of what the variable steps over, or nothing for an undefined index. */
  method GetGepStepSize(ty: Ty, g: seq<Index>) returns (step: Option<nat>)
    requires StepForm(g)
    ensures HasUndef(g) && !HasVar(g) ==> step == None
    ensures VarForm(g) && Indexed(ty, |g| - 1).Some? ==> step == Some(Size(Indexed(ty, |g| - 1).value))
  {
    ghost var first :| 0 <= first < |g| && !g[first].Const? && forall i :: 0 <= i < first ==> g[i] == Zero;
    var k := 0;
    while g[k].Const?
      invariant k <= first && forall i :: 0 <= i < k ==> g[i] == Zero
      decreases first - k
    {
      assert g[k] == Zero;
      k := k + 1;
    }
    if g[k].Undef? {
      return None;
    }
    var indexed := Indexed(ty, k);
    return if indexed.None? then None else Some(Size(indexed.value));
  }

  lemma DescendFirst(at: Place, i: Index, rest: seq<Index>, env: Env)
    ensures Descend(at, [i] + rest, env) ==
      var step := Select(at.ty, i, env);
      if step.None? then None else Descend(Place(at.off + step.value.off, step.value.ty), rest, env)
  {
    assert ([i] + rest)[1..] == rest;
  }

  /** The step size is the distance between the addresses for neighbouring values of the variable. */
  lemma StepIsStride(at: Place, g: seq<Index>, env: Env)
    requires VarForm(g) && Gep(at, g, env).Some?
    ensures Indexed(at.ty, |g| - 1).Some?
    ensures
      var x, ty := g[|g| - 1].id, Indexed(at.ty, |g| - 1).value;
      Gep(at, g, env) == Some(Place(at.off + env.vars(x) * Size(ty), ty))
  {
    if |g| == 2 {
      assert g[1..] == [g[1]];
      assert env.Val(g[0]) * Size(at.ty) == 0;
      DescendFirst(at, g[1], [], env);
      assert [g[1]] + [] == [g[1]];
    } else {
      assert g[1..] == [];
    }
  }

  /** A run of constant indices with an undefined one that the step size can still deal with. */
  predicate RunOk(run: seq<Index>) {
    HasUndef(run) ==> |run| <= 2 && run[|run| - 1].Undef? && (run[0] == Zero || run[0].Undef?)
  }

  /** Every run of constants between two variables is such a run; `run` is the current one. */
  predicate RunsOk(run: seq<Index>, rest: seq<Index>)
    decreases |rest|
  {
    if rest == [] then RunOk(run)
    else if rest[0].Var? then RunOk(run) && RunsOk([], rest[1..])
    else RunsOk(run + [rest[0]], rest[1..])
  }

  /** All emitted instructions for which the step size is asked meet its assertions. */
  ghost predicate AllStepForm(geps: seq<seq<Index>>) {
    forall g :: g in geps && !AllInts(g) ==> StepForm(g)
  }

  lemma UndefRun(run: seq<Index>)
    requires !HasVar(run) && HasUndef(run)
    ensures StepForm([Zero] + run) <==> RunOk(run)
    ensures !AllInts([Zero] + run)
  {
    var g := [Zero] + run;
    assert forall i :: 0 <= i < |run| ==> g[i + 1] == run[i];
    var u :| 0 <= u < |run| && run[u].Undef?;
    assert !g[u + 1].Const?;
    if |run| == 1 {
      assert !g[1].Const? && g[0] == Zero;
    } else if |run| == 2 {
      assert g == [Zero, run[0], run[1]];
      if RunOk(run) {
        var k := if run[0] == Zero then 2 else 1;
        assert !g[k].Const? && forall i :: 0 <= i < k ==> g[i] == Zero;
      }
    }
  }

  lemma FlushForms(run: seq<Index>)
    requires !HasVar(run)
    ensures AllStepForm(Flush([Zero] + run)) <==> RunOk(run)
  {
    var g := [Zero] + run;
    if HasUndef(run) {
      UndefRun(run);
      hide StepForm, AllInts;
      assert Flush(g) == [g];
      assert g in Flush(g);
    } else {
      hide StepForm;
      assert AllInts(g);
      assert forall h :: h in Flush(g) ==> h == g;
    }
  }

  lemma {:induction false} EmittedStepForms(run: seq<Index>, rest: seq<Index>)
    requires !HasVar(run)
    ensures AllStepForm(Emitted([Zero] + run, rest)) <==> RunsOk(run, rest)
    decreases |rest|
  {
    if rest == [] {
      FlushForms(run);
    } else if rest[0].Var? {
      FlushForms(run);
      EmittedStepForms([], rest[1..]);
      assert [Zero] + [] == [Zero];
      VarStepForm(rest[0]);
      hide StepForm, AllInts, RunOk;
      var a, b, c := Flush([Zero] + run), [[Zero, rest[0]]], Emitted([Zero], rest[1..]);
      AllStepFormAppend(a, b);
      AllStepFormAppend(a + b, c);
    } else {
      assert [Zero] + (run + [rest[0]]) == ([Zero] + run) + [rest[0]];
      EmittedStepForms(run + [rest[0]], rest[1..]);
    }
  }

  lemma AllStepFormAppend(xs: seq<seq<Index>>, ys: seq<seq<Index>>)
    ensures AllStepForm(xs + ys) <==> AllStepForm(xs) && AllStepForm(ys)
  {
    hide StepForm, AllInts;
    assert forall g :: g in xs + ys <==> g in xs || g in ys;
  }

  lemma VarStepForm(v: Index)
    ensures v.Var? ==> AllStepForm([[Zero, v]])
    ensures !v.Const? ==> StepForm([v])
  {
    if v.Var? {
      assert ![Zero, v][1].Const?;
    }
    if !v.Const? {
      assert ![v][0].Const?;
    }
  }

  /**
   * The pass establishes what the step size asserts exactly if no run of constants after the first index
   * mixes an undefined value with others, except for one zero before it.
   */
  lemma SplitStepForms(idxs: seq<Index>)
    requires idxs != [] && !AllInts(idxs)
    ensures AllStepForm(Split(idxs)) <==> RunsOk([], idxs[1..])
  {
    EmittedStepForms([], idxs[1..]);
    assert [Zero] + [] == [Zero];
    if idxs[0] != Zero {
      VarStepForm(idxs[0]);
      AllStepFormAppend([[idxs[0]]], Emitted([Zero], idxs[1..]));
      assert idxs[0].Const? ==> AllInts([idxs[0]]);
    }
  }

  /** Without undefined values the pass always establishes it. */
  lemma {:induction false} NoUndefRunsOk(run: seq<Index>, rest: seq<Index>)
    requires !HasUndef(run) && !HasUndef(rest)
    ensures RunsOk(run, rest)
    decreases |rest|
  {
    if rest != [] {
      assert forall i :: 0 <= i < |rest[1..]| ==> rest[1..][i] == rest[i + 1];
      if rest[0].Var? {
        NoUndefRunsOk([], rest[1..]);
      } else {
        NoUndefRunsOk(run + [rest[0]], rest[1..]);
      }
    }
  }

  function Grid(): Ty {
    Struct(Field(0, Prim(4), Field(4, Arr(2, Arr(3, Prim(4))), NoField)), 28)
  }

  /** An undefined index after a constant that is not zero leaves an instruction that violates the assertions. */
  lemma UndefBreaksForm(env: Env)
    ensures Wf(Grid()) && Gep(Place(0, Grid()), [Zero, Const(1), Undef(0), Var(0)], env).Some?
    ensures !AllStepForm(Split([Zero, Const(1), Undef(0), Var(0)]))
  {
    GridIndexed(env);
    UndefRunBad();
    var idxs := [Zero, Const(1), Undef(0), Var(0)];
    assert !idxs[3].Const?;
    SplitStepForms(idxs);
  }

  lemma GridIndexed(env: Env)
    ensures Wf(Grid()) && Gep(Place(0, Grid()), [Zero, Const(1), Undef(0), Var(0)], env).Some?
  {
    var idxs, at := [Zero, Const(1), Undef(0), Var(0)], Place(0, Grid());
    assert idxs[1..] == [Const(1)] + ([Undef(0)] + ([Var(0)] + []));
    assert FieldAt(Grid().fields, 1) == Some(Place(4, Arr(2, Arr(3, Prim(4)))));
    DescendFirst(at, Const(1), [Undef(0)] + ([Var(0)] + []), env);
    var row := Place(4, Arr(2, Arr(3, Prim(4))));
    DescendFirst(row, Undef(0), [Var(0)] + [], env);
    var cell := Place(4 + env.undefs(0) * Size(Arr(3, Prim(4))), Arr(3, Prim(4)));
    DescendFirst(cell, Var(0), [], env);
  }

  lemma UndefRunBad()
    ensures !RunsOk([], [Zero, Const(1), Undef(0), Var(0)][1..])
  {
    var rest := [Zero, Const(1), Undef(0), Var(0)][1..];
    assert rest == [Const(1), Undef(0), Var(0)];
    assert rest[1..] == [Undef(0), Var(0)];
    assert rest[1..][1..] == [Var(0)];
    var run := [] + [Const(1)] + [Undef(0)];
    assert run[1].Undef?;
    assert !RunOk(run);
    assert !RunsOk(run, rest[1..][1..]);
    assert !RunsOk([] + [Const(1)], rest[1..]);
  }
}
