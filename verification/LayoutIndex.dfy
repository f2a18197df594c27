/** Indexing a collapsed layout through its flattened sub-array maps (Layout/Layouts.cpp:29-68, 110-123, 194-204). */
module LayoutIndexing {
  import opened Layouts

  /** An `ArrayLayout` at its physical offset; `subs` are the arrays inside one element, in order. */
  datatype SubArray = SubArray(off: nat, elementNum: nat, elementSize: nat, layoutSize: nat, subs: seq<SubArray>) {
    function GetArraySize(): nat {
      elementNum * elementSize
    }

    function End(): nat {
      off + GetArraySize()
    }
  }

  /** An ordered sub-array map: arrays do not overlap and lie within the offsets from `from` to `to`. */
  ghost predicate InOrder(arrays: seq<SubArray>, from: nat, to: nat)
    decreases arrays
  {
    if arrays == [] then from <= to
    else from <= arrays[0].off && ArrayOk(arrays[0]) && InOrder(arrays[1..], arrays[0].End(), to)
  }

  ghost predicate ArrayOk(a: SubArray)
    decreases a
  {
    a.elementNum > 0 && 0 < a.layoutSize <= a.elementSize && InOrder(a.subs, 0, a.elementSize)
  }

  /** What the arithmetic on a sub-array map computes; arrays passed so far have lost `lost` bytes. */
  ghost function Between(arrays: seq<SubArray>, p: int, lost: int): Loc
    decreases arrays
  {
    if arrays == [] || p <= arrays[0].off then Loc(p, p - lost)
    else if p >= arrays[0].End() then Between(arrays[1..], p, lost + arrays[0].GetArraySize() - arrays[0].layoutSize)
    else
      var b := Inside(arrays[0], p - arrays[0].off);
      Loc(arrays[0].off + b.p, arrays[0].off - lost + b.l)
  }

  /** All elements of an array are one. */
  ghost function Inside(a: SubArray, p: int): Loc
    decreases a
  {
    if a.elementSize == 0 then Loc(p, p) else Between(a.subs, p % a.elementSize, 0)
  }

  /** The sub-array map of a type. */
  function SubArrays(ty: Ty): seq<SubArray> {
    match ty
    case Prim(_) => []
    case Ptr(_) => []
    case Arr(n, e) => [SubArray(0, n, Size(e), Abs(LSize(e)), SubArrays(e))]
    case Struct(fs, _) => SubArraysOf(fs)
  }

  function SubArraysOf(fs: Fields): seq<SubArray> {
    if fs.NoField? then [] else Shifted(SubArrays(fs.ty), fs.off) + SubArraysOf(fs.rest)
  }

  function Shifted(arrays: seq<SubArray>, off: nat): seq<SubArray> {
    if arrays == [] then [] else [arrays[0].(off := arrays[0].off + off)] + Shifted(arrays[1..], off)
  }

  function Abs(i: int): nat {
    if i < 0 then -i else i
  }

  /** The bytes lost by all arrays of a map. */
  ghost function Lost(arrays: seq<SubArray>): int {
    if arrays == [] then 0 else arrays[0].GetArraySize() - arrays[0].layoutSize + Lost(arrays[1..])
  }

  lemma {:induction false} InOrderEnds(arrays: seq<SubArray>, from: nat, to: nat)
    requires InOrder(arrays, from, to)
    ensures from <= to
  {
    if arrays != [] {
      InOrderEnds(arrays[1..], arrays[0].End(), to);
    }
  }

  lemma {:induction false} InOrderAppend(xs: seq<SubArray>, ys: seq<SubArray>, from: nat, mid: nat, to: nat)
    requires InOrder(xs, from, mid) && InOrder(ys, mid, to)
    ensures InOrder(xs + ys, from, to) && Lost(xs + ys) == Lost(xs) + Lost(ys)
    decreases |xs|
  {
    if xs == [] {
      assert xs + ys == ys;
      InOrderWiden(ys, from, mid, to);
    } else {
      assert (xs + ys)[1..] == xs[1..] + ys;
      InOrderAppend(xs[1..], ys, xs[0].End(), mid, to);
    }
  }

  lemma {:induction false} InOrderWiden(ys: seq<SubArray>, from: nat, mid: nat, to: nat)
    requires from <= mid && InOrder(ys, mid, to)
    ensures InOrder(ys, from, to)
  {
    if ys == [] {
      InOrderEnds(ys, mid, to);
    }
  }

  lemma {:induction false} ShiftedInOrder(arrays: seq<SubArray>, from: nat, to: nat, off: nat)
    requires InOrder(arrays, from, to)
    ensures InOrder(Shifted(arrays, off), from + off, to + off) && Lost(Shifted(arrays, off)) == Lost(arrays)
    decreases |arrays|
  {
    if arrays != [] {
      var a := arrays[0].(off := arrays[0].off + off);
      assert Shifted(arrays, off) == [a] + Shifted(arrays[1..], off);
      assert Shifted(arrays, off)[1..] == Shifted(arrays[1..], off);
      assert ArrayOk(a);
      ShiftedInOrder(arrays[1..], arrays[0].End(), to, off);
    }
  }

  /** The sub-array map of a type is ordered, and it loses as many bytes as the type. */
  lemma {:induction false} SubArraysInOrder(ty: Ty)
    requires Wf(ty)
    ensures InOrder(SubArrays(ty), 0, Size(ty)) && Lost(SubArrays(ty)) == Shrink(ty)
    decreases ty
  {
    match ty
    case Prim(_) =>
    case Ptr(_) =>
    case Arr(n, e) =>
      SubArraysInOrder(e);
      ShrinkBounds(e);
      var a := SubArrays(ty)[0];
      assert SubArrays(ty)[1..] == [];
      assert ArrayOk(a);
    case Struct(fs, n) =>
      FieldsInOrder(fs, 0, n);
  }

  lemma {:induction false} FieldsInOrder(fs: Fields, from: nat, size: nat)
    requires WfFields(fs, from, size)
    ensures InOrder(SubArraysOf(fs), from, size) && Lost(SubArraysOf(fs)) == ShrinkFields(fs)
    decreases fs
  {
    if fs.Field? {
      SubArraysInOrder(fs.ty);
      ShiftedInOrder(SubArrays(fs.ty), 0, Size(fs.ty), fs.off);
      InOrderWiden(Shifted(SubArrays(fs.ty), fs.off), from, fs.off, fs.off + Size(fs.ty));
      FieldsInOrder(fs.rest, fs.off + Size(fs.ty), size);
      InOrderAppend(Shifted(SubArrays(fs.ty), fs.off), SubArraysOf(fs.rest), from, fs.off + Size(fs.ty), size);
    }
  }

  // ---- The arithmetic is the walk ----------------------------------------------------------

  /** Arrays that start at `p` or later do not matter. */
  lemma BetweenBefore(arrays: seq<SubArray>, from: nat, to: nat, p: int, lost: int)
    requires InOrder(arrays, from, to) && p <= from
    ensures Between(arrays, p, lost) == Loc(p, p - lost)
  {
  }

  lemma {:induction false} ArraySizePositive(a: SubArray)
    requires ArrayOk(a)
    ensures a.GetArraySize() > 0
  {
    AtLeastOnce(a.elementNum, a.elementSize);
  }

  /** Arrays that end at `p` or before only add up what they lose. */
  lemma {:induction false} BetweenAfter(xs: seq<SubArray>, ys: seq<SubArray>, from: nat, mid: nat, p: int, lost: int)
    requires InOrder(xs, from, mid) && p >= mid
    ensures Between(xs + ys, p, lost) == Between(ys, p, lost + Lost(xs))
    decreases |xs|
  {
    if xs == [] {
      assert xs + ys == ys;
    } else {
      assert (xs + ys)[1..] == xs[1..] + ys;
      InOrderEnds(xs[1..], xs[0].End(), mid);
      ArraySizePositive(xs[0]);
      BetweenAfter(xs[1..], ys, xs[0].End(), mid, p, lost + xs[0].GetArraySize() - xs[0].layoutSize);
    }
  }

  lemma {:induction false} BetweenWithin(xs: seq<SubArray>, ys: seq<SubArray>, from: nat, mid: nat, to: nat, p: int, lost: int)
    requires InOrder(xs, from, mid) && InOrder(ys, mid, to) && p < mid
    ensures Between(xs + ys, p, lost) == Between(xs, p, lost)
    decreases |xs|
  {
    if xs == [] {
      assert xs + ys == ys;
    } else {
      assert (xs + ys)[1..] == xs[1..] + ys;
      BetweenWithin(xs[1..], ys, xs[0].End(), mid, to, p, lost + xs[0].GetArraySize() - xs[0].layoutSize);
    }
  }

  lemma {:induction false} BetweenShifted(arrays: seq<SubArray>, off: nat, p: int, lost: int, more: int)
    ensures
      var b := Between(arrays, p - off, more);
      Between(Shifted(arrays, off), p, lost + more) == Loc(off + b.p, off - lost + b.l)
    decreases |arrays|
  {
    if arrays != [] {
      var a := arrays[0].(off := arrays[0].off + off);
      assert Shifted(arrays, off) == [a] + Shifted(arrays[1..], off);
      assert Shifted(arrays, off)[1..] == Shifted(arrays[1..], off);
      assert Inside(a, p - a.off) == Inside(arrays[0], p - off - arrays[0].off);
      BetweenShifted(arrays[1..], off, p, lost, more + a.GetArraySize() - a.layoutSize);
    }
  }

  /** For every offset of a type, the arithmetic on its sub-array map is the structural walk. */
  lemma {:induction false} BetweenIsWalk(ty: Ty, p: int)
    requires Wf(ty) && 0 <= p < Size(ty)
    ensures Between(SubArrays(ty), p, 0) == Walk(ty, p)
    decreases ty
  {
    match ty
    case Prim(_) =>
    case Ptr(_) =>
    case Arr(n, e) =>
      SizePositive(e);
      if p == 0 {
        WalkZero(ty);
      } else {
        BetweenIsWalk(e, p % Size(e));
      }
    case Struct(fs, n) =>
      FieldsAreWalk(fs, 0, n, p, 0);
  }

  lemma {:induction false} FieldsAreWalk(fs: Fields, from: nat, size: nat, p: int, lost: int)
    requires WfFields(fs, from, size) && from <= p < size
    ensures Between(SubArraysOf(fs), p, lost) == WalkFields(fs, p, lost)
    decreases fs
  {
    if fs.Field? {
      var mid := fs.off + Size(fs.ty);
      MapParts(fs, from, size);
      hide InOrder, Lost, Between, Shifted, SubArrays, SubArraysOf, Wf;
      var xs, ys := Shifted(SubArrays(fs.ty), fs.off), SubArraysOf(fs.rest);
      if p < fs.off {
        InOrderAppend(xs, ys, fs.off, mid, size);
        BetweenBefore(xs + ys, fs.off, size, p, lost);
      } else if p < mid {
        BetweenWithin(xs, ys, fs.off, mid, size, p, lost);
        BetweenShifted(SubArrays(fs.ty), fs.off, p, lost, 0);
        BetweenIsWalk(fs.ty, p - fs.off);
      } else {
        BetweenAfter(xs, ys, fs.off, mid, p, lost);
        FieldsAreWalk(fs.rest, mid, size, p, lost + Shrink(fs.ty));
      }
    }
  }

  /** The map of a struct is that of its first field, moved to its offset, and then that of the other fields. */
  lemma MapParts(fs: Fields, from: nat, size: nat)
    requires WfFields(fs, from, size) && fs.Field?
    ensures SubArraysOf(fs) == Shifted(SubArrays(fs.ty), fs.off) + SubArraysOf(fs.rest)
    ensures InOrder(Shifted(SubArrays(fs.ty), fs.off), fs.off, fs.off + Size(fs.ty)) && Lost(Shifted(SubArrays(fs.ty), fs.off)) == Shrink(fs.ty)
    ensures InOrder(SubArraysOf(fs.rest), fs.off + Size(fs.ty), size)
  {
    SubArraysInOrder(fs.ty);
    ShiftedInOrder(SubArrays(fs.ty), 0, Size(fs.ty), fs.off);
    FieldsInOrder(fs.rest, fs.off + Size(fs.ty), size);
  }

  // ---- The loops ---------------------------------------------------------------------------

  /** `indexBetweenArrays`: the layout offset, and the rewritten physical offset. */
  method IndexBetweenArrays(arrays: seq<SubArray>, pOffset: nat, ghost to: nat) returns (lOffset: nat, pOffset': nat)
    requires InOrder(arrays, 0, to)
    ensures Loc(pOffset', lOffset) == Between(arrays, pOffset, 0)
    decreases arrays
  {
    lOffset, pOffset' := 0, pOffset;
    var curOffset := 0;
    var k := 0;
    while k < |arrays|
      invariant k <= |arrays| && lOffset <= curOffset <= pOffset && InOrder(arrays[k..], curOffset, to)
      invariant Between(arrays[k..], pOffset, curOffset - lOffset) == Between(arrays, pOffset, 0)
      invariant pOffset' == pOffset
    {
      var a := arrays[k];
      assert arrays[k..][0] == a && arrays[k..][1..] == arrays[k + 1..];
      if pOffset <= a.off {
        lOffset := lOffset + (pOffset - curOffset);
        return;
      }
      lOffset := lOffset + (a.off - curOffset);
      if pOffset >= a.End() {
        assert a.layoutSize <= a.GetArraySize() by {
          AtLeastOnce(a.elementNum, a.elementSize);
        }
        lOffset := lOffset + a.layoutSize;
        curOffset := a.End();
        k := k + 1;
      } else {
        var l, q := IndexArray(a, pOffset - a.off);
        lOffset, pOffset' := lOffset + l, a.off + q;
        return;
      }
    }
    lOffset := lOffset + (pOffset - curOffset);
  }

  /** `ArrayLayout::indexPhysicalOffset`. */
  method IndexArray(a: SubArray, pOffset: nat) returns (lOffset: nat, pOffset': nat)
    requires ArrayOk(a) && pOffset <= a.GetArraySize()
    ensures Loc(pOffset', lOffset) == Inside(a, pOffset)
    decreases a
  {
    if a.subs != [] {
      lOffset, pOffset' := IndexBetweenArrays(a.subs, pOffset % a.elementSize, a.elementSize);
    } else {
      pOffset' := pOffset % a.elementSize;
      lOffset := pOffset';
    }
  }
}
