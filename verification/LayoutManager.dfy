/** Building collapsed layouts from types, with a cache (Layout/MemLayoutManager.h, Layout/Layouts.cpp:110-148). */
module LayoutManagers {
  import opened Options
  import opened Layouts
  import opened LayoutIndexing

  /** A finished layout; the sub-array map is kept as the list of its entries in key order. */
  datatype MemLayout = MemLayout(elements: set<int>, pointers: set<int>, subArrays: seq<SubArray>, maxLOffset: nat, maxPOffset: nat, isArray: bool)

  function Moved(S: set<int>, d: int): set<int> {
    set e | e in S :: e + d
  }

  /** The layout offsets at which a primitive or a pointer starts. */
  function Elements(ty: Ty): set<int> {
    match ty
    case Prim(_) => {0}
    case Ptr(_) => {0}
    case Arr(_, e) => Elements(e)
    case Struct(fs, _) => ElementsOf(fs, 0)
  }

  function ElementsOf(fs: Fields, lost: int): set<int> {
    if fs.NoField? then {} else Moved(Elements(fs.ty), fs.off - lost) + ElementsOf(fs.rest, lost + Shrink(fs.ty))
  }

  /** The layout offsets at which a pointer starts. */
  function Pointers(ty: Ty): set<int> {
    match ty
    case Prim(_) => {}
    case Ptr(_) => {0}
    case Arr(_, e) => Pointers(e)
    case Struct(fs, _) => PointersOf(fs, 0)
  }

  function PointersOf(fs: Fields, lost: int): set<int> {
    if fs.NoField? then {} else Moved(Pointers(fs.ty), fs.off - lost) + PointersOf(fs.rest, lost + Shrink(fs.ty))
  }

  function LayoutOf(ty: Ty): MemLayout {
    MemLayout(Elements(ty), Pointers(ty), SubArrays(ty), Abs(LSize(ty)), Size(ty), ty.Arr?)
  }

  /** `std::map::insert`: keys stay in order, and an entry that is there stays. */
  function Inserted(arrays: seq<SubArray>, a: SubArray): seq<SubArray> {
    if arrays == [] || a.off < arrays[0].off then [a] + arrays
    else if a.off == arrays[0].off then arrays
    else [arrays[0]] + Inserted(arrays[1..], a)
  }

  /** An array after all others is appended. */
  lemma {:induction false} InsertedLast(arrays: seq<SubArray>, a: SubArray, from: nat, to: nat)
    requires InOrder(arrays, from, to) && a.off >= to
    ensures Inserted(arrays, a) == arrays + [a]
    decreases |arrays|
  {
    if arrays != [] {
      InOrderEnds(arrays[1..], arrays[0].End(), to);
      ArraySizePositive(arrays[0]);
      InsertedLast(arrays[1..], a, arrays[0].End(), to);
    }
  }

  /** Insert the arrays of `subs`, moved by `off`, one after the other. */
  method MergeSubArrays(arrays: seq<SubArray>, subs: seq<SubArray>, off: nat, ghost from: nat, ghost to: nat, ghost end: nat) returns (r: seq<SubArray>)
    requires InOrder(arrays, from, to) && to <= off && InOrder(subs, 0, end)
    ensures r == arrays + Shifted(subs, off) && InOrder(r, from, off + end)
  {
    r := arrays;
    var k := 0;
    ghost var at: nat := 0;
    ghost var last: nat := to;
    while k < |subs|
      invariant k <= |subs| && InOrder(subs[k..], at, end) && InOrder(r, from, last) && last <= off + at
      invariant r + Shifted(subs[k..], off) == arrays + Shifted(subs, off)
    {
      var a := subs[k].(off := subs[k].off + off);
      assert subs[k..][0] == subs[k] && subs[k..][1..] == subs[k + 1..];
      assert Shifted(subs[k..], off) == [a] + Shifted(subs[k + 1..], off);
      InsertedLast(r, a, from, last);
      Single(a);
      InOrderAppend(r, [a], from, last, a.End());
      r := Inserted(r, a);
      at := subs[k].End();
      last := a.End();
      k := k + 1;
    }
    assert subs[k..] == [];
    InOrderEnds(subs[k..], at, end);
    InOrderAppend(r, [], from, last, off + end);
    assert r + [] == r;
  }

  lemma Single(a: SubArray)
    requires ArrayOk(a)
    ensures InOrder([a], a.off, a.End())
    ensures forall last: nat :: last <= a.off ==> InOrder([a], last, a.End())
  {
    assert [a][1..] == [];
  }

  /** The parts of a layout under construction, without its sizes. */
  datatype Parts = Parts(elements: set<int>, pointers: set<int>, subArrays: seq<SubArray>)

  class MemLayoutManager {
    var collapsedLayoutMap: map<Ty, MemLayout>

    /** Every cached layout is that of its type. */
    ghost predicate Valid()
      reads this
    {
      forall t :: t in collapsedLayoutMap ==> collapsedLayoutMap[t] == LayoutOf(t)
    }

    constructor ()
      ensures Valid() && collapsedLayoutMap == map[]
    {
      collapsedLayoutMap := map[];
    }

    /** `setElementLayout` for a field of a struct: its parts are moved to the current offsets. */
    method SetFieldLayout(ty: Ty, parent: Parts, lOffset: nat, pOffset: nat) returns (parent': Parts, lOffset': nat, pOffset': nat)
      requires Valid() && Wf(ty) && InOrder(parent.subArrays, 0, pOffset) && lOffset <= pOffset
      modifies this
      ensures Valid() && lOffset' == lOffset + LSize(ty) && pOffset' == pOffset + Size(ty) && lOffset' <= pOffset'
      ensures parent'.elements == parent.elements + Moved(Elements(ty), lOffset)
      ensures parent'.pointers == parent.pointers + Moved(Pointers(ty), lOffset)
      ensures parent'.subArrays == parent.subArrays + Shifted(SubArrays(ty), pOffset) && InOrder(parent'.subArrays, 0, pOffset')
      decreases ty, 2
    {
      ShrinkBounds(ty);
      InOrderLater(parent.subArrays, 0, pOffset, pOffset + Size(ty));
      match ty {
        case Prim(size) =>
          parent' := parent.(elements := parent.elements + {lOffset as int});
          lOffset', pOffset' := lOffset + size, pOffset + size;
          assert Moved({0}, lOffset) == {lOffset as int};
          assert parent.subArrays + [] == parent.subArrays;
        case Ptr(size) =>
          parent' := parent.(elements := parent.elements + {lOffset as int}, pointers := parent.pointers + {lOffset as int});
          lOffset', pOffset' := lOffset + size, pOffset + size;
          assert Moved({0}, lOffset) == {lOffset as int};
          assert parent.subArrays + [] == parent.subArrays;
        case _ =>
          var sub, subL, subP := DFSTypeTree(ty);
          SubArraysInOrder(ty);
          var arrays := MergeSubArrays(parent.subArrays, sub.subArrays, pOffset, 0, pOffset, Size(ty));
          parent' := Parts(parent.elements + Moved(sub.elements, lOffset), parent.pointers + Moved(sub.pointers, lOffset), arrays);
          lOffset', pOffset' := lOffset + subL, pOffset + Size(ty);
      }
    }

    /** `setElementLayout` for the element of an array: its sub-arrays become those of the array. */
    method SetArrayElement(ty: Ty, arr: SubArray) returns (elements: set<int>, pointers: set<int>, arr': SubArray, lOffset: nat, pOffset: nat)
      requires Valid() && Wf(ty) && arr.subs == []
      modifies this
      ensures Valid() && lOffset == LSize(ty) && pOffset == Size(ty)
      ensures elements == Elements(ty) && pointers == Pointers(ty) && arr' == arr.(subs := SubArrays(ty))
      decreases ty, 2
    {
      ShrinkBounds(ty);
      match ty {
        case Prim(size) =>
          elements, pointers, arr', lOffset, pOffset := {0}, {}, arr, size, size;
        case Ptr(size) =>
          elements, pointers, arr', lOffset, pOffset := {0}, {0}, arr, size, size;
        case _ =>
          var sub, subL, subP := DFSTypeTree(ty);
          SubArraysInOrder(ty);
          var arrays := MergeSubArrays(arr.subs, sub.subArrays, 0, 0, 0, Size(ty));
          ShiftedZero(sub.subArrays);
          assert [] + sub.subArrays == sub.subArrays;
          elements, pointers, arr' := sub.elements, sub.pointers, arr.(subs := arrays);
          lOffset, pOffset := subL, Size(ty);
      }
    }

    /** `getCollapsedArrayLayout`. */
    method GetCollapsedArrayLayout(ty: Ty) returns (layout: MemLayout, lOffset: nat, pOffset: nat)
      requires Valid() && Wf(ty) && ty.Arr?
      modifies this
      ensures Valid() && layout == LayoutOf(ty) && lOffset == LSize(ty) && pOffset == Size(ty)
      decreases ty, 0
    {
      ShrinkBounds(ty);
      var elements, pointers, arr, l, p := SetArrayElement(ty.elem, SubArray(0, ty.count, Size(ty.elem), 0, []));
      lOffset, pOffset := l, p + Size(ty.elem) * (ty.count - 1);
      assert pOffset == Size(ty);
      layout := MemLayout(elements, pointers, [arr.(layoutSize := lOffset)], lOffset, pOffset, true);
      collapsedLayoutMap := collapsedLayoutMap[ty := layout];
    }

    /** `getStructLayout`: the fields one after the other, with the padding before each and after the last one. */
    method GetStructLayout(ty: Ty) returns (layout: MemLayout, lOffset: nat, pOffset: nat)
      requires Valid() && Wf(ty) && ty.Struct?
      modifies this
      ensures Valid() && layout == LayoutOf(ty) && lOffset == LSize(ty) && pOffset == Size(ty)
      decreases ty, 0
    {
      hide InOrder, Shifted, Moved;
      InOrderStart();
      ShrinkBounds(ty);
      var parts := Parts({}, {}, []);
      lOffset, pOffset := 0, 0;
      var fs := ty.fields;
      assert [] + SubArraysOf(fs) == SubArraysOf(fs);
      while fs.Field?
        invariant fs < ty && Valid() && lOffset <= pOffset && WfFields(fs, pOffset, ty.size) && InOrder(parts.subArrays, 0, pOffset)
        invariant pOffset - lOffset + ShrinkFields(fs) == ShrinkFields(ty.fields)
        invariant parts.elements + ElementsOf(fs, pOffset - lOffset) == Elements(ty)
        invariant parts.pointers + PointersOf(fs, pOffset - lOffset) == Pointers(ty)
        invariant parts.subArrays + SubArraysOf(fs) == SubArrays(ty)
        decreases fs
      {
        var padding := fs.off - pOffset;
        ghost var before, lost := parts, pOffset - lOffset;
        InOrderLater(parts.subArrays, 0, pOffset, fs.off);
        lOffset, pOffset := lOffset + padding, pOffset + padding;
        ShrinkBounds(fs.ty);
        parts, lOffset, pOffset := SetFieldLayout(fs.ty, parts, lOffset, pOffset);
        assert before.subArrays + (Shifted(SubArrays(fs.ty), fs.off) + SubArraysOf(fs.rest)) == parts.subArrays + SubArraysOf(fs.rest);
        fs := fs.rest;
      }
      assert parts.subArrays + [] == parts.subArrays;
      if pOffset != ty.size {
        var padding := ty.size - pOffset;
        lOffset, pOffset := lOffset + padding, pOffset + padding;
      }
      layout := MemLayout(parts.elements, parts.pointers, parts.subArrays, lOffset, pOffset, false);
      collapsedLayoutMap := collapsedLayoutMap[ty := layout];
    }

    /** `DFSTypeTree`: the cached layout of an aggregate, or a new one. */
    method DFSTypeTree(ty: Ty) returns (layout: MemLayout, lOffset: nat, pOffset: nat)
      requires Valid() && Wf(ty) && (ty.Arr? || ty.Struct?)
      modifies this
      ensures Valid() && layout == LayoutOf(ty) && lOffset == LSize(ty) && pOffset == Size(ty)
      decreases ty, 1
    {
      ShrinkBounds(ty);
      if ty in collapsedLayoutMap {
        layout := collapsedLayoutMap[ty];
        lOffset, pOffset := layout.maxLOffset, layout.maxPOffset;
      } else if ty.Arr? {
        layout, lOffset, pOffset := GetCollapsedArrayLayout(ty);
      } else {
        layout, lOffset, pOffset := GetStructLayout(ty);
      }
    }
  }

  lemma InOrderStart()
    ensures InOrder([], 0, 0)
  {
  }

  lemma {:induction false} InOrderLater(arrays: seq<SubArray>, from: nat, to: nat, later: nat)
    requires InOrder(arrays, from, to) && to <= later
    ensures InOrder(arrays, from, later)
    decreases |arrays|
  {
    if arrays != [] {
      InOrderLater(arrays[1..], arrays[0].End(), to, later);
    }
  }

  lemma {:induction false} ShiftedZero(arrays: seq<SubArray>)
    ensures Shifted(arrays, 0) == arrays
  {
    if arrays != [] {
      ShiftedZero(arrays[1..]);
      assert arrays == [arrays[0]] + arrays[1..];
    }
  }

  // ---- Indexing ----------------------------------------------------------------------------

  /**
   * `MemLayout::indexPhysicalOffset`, for the layout of a type: inside the type it is the structural walk.
   * Outside it fails, but a layout without arrays returns the offset as it is.
   */
  method IndexPhysicalOffset(layout: MemLayout, pOffset: nat, ghost ty: Ty) returns (lOffset: Option<nat>, pOffset': nat)
    requires Wf(ty) && layout == LayoutOf(ty)
    ensures pOffset < Size(ty) ==> lOffset.Some? && Loc(pOffset', lOffset.value) == Walk(ty, pOffset)
    ensures pOffset >= Size(ty) ==> pOffset' == pOffset && lOffset == if SubArrays(ty) == [] then Some(pOffset) else None
    ensures (lOffset.Some? && lOffset.value < LSize(ty)) <==> pOffset < Size(ty)
  {
    ShrinkBounds(ty);
    SubArraysInOrder(ty);
    if pOffset < Size(ty) {
      BetweenIsWalk(ty, pOffset);
      WalkBounds(ty, pOffset);
    }
    if layout.subArrays == [] {
      return Some(pOffset), pOffset;
    } else if pOffset >= layout.maxPOffset {
      return None, pOffset;
    } else {
      var l, p := IndexBetweenArrays(layout.subArrays, pOffset, Size(ty));
      return Some(l), p;
    }
  }

  // ---- Elements ----------------------------------------------------------------------------

  /** A primitive or a pointer starts at offset `p`, in whichever array elements it lies; `ptr` asks for a pointer. */
  predicate Leaf(ty: Ty, p: int, ptr: bool) {
    match ty
    case Prim(_) => p == 0 && !ptr
    case Ptr(_) => p == 0
    case Arr(_, e) => Size(e) > 0 && Leaf(e, p % Size(e), ptr)
    case Struct(fs, _) => LeafIn(fs, p, ptr)
  }

  predicate LeafIn(fs: Fields, p: int, ptr: bool) {
    if fs.NoField? || p < fs.off then false
    else if p < fs.off + Size(fs.ty) then Leaf(fs.ty, p - fs.off, ptr)
    else LeafIn(fs.rest, p, ptr)
  }

  lemma MovedMember(S: set<int>, d: int, x: int)
    ensures x in Moved(S, d) <==> x - d in S
  {
    if x - d in S {
      assert (x - d) + d == x;
    }
  }

  lemma {:induction false} ElementBounds(ty: Ty)
    requires Wf(ty)
    ensures Pointers(ty) <= Elements(ty) && forall l :: l in Elements(ty) ==> 0 <= l < LSize(ty)
    decreases ty
  {
    ShrinkBounds(ty);
    match ty
    case Prim(_) =>
    case Ptr(_) =>
    case Arr(_, e) =>
      ElementBounds(e);
    case Struct(fs, n) =>
      FieldElementBounds(fs, 0, n, 0);
  }

  lemma {:induction false} FieldElementBounds(fs: Fields, from: nat, size: nat, lost: int)
    requires WfFields(fs, from, size)
    ensures PointersOf(fs, lost) <= ElementsOf(fs, lost)
    ensures forall l :: l in ElementsOf(fs, lost) ==> from - lost <= l < size - lost - ShrinkFields(fs)
    decreases fs
  {
    if fs.Field? {
      var next := fs.off + Size(fs.ty);
      ElementBounds(fs.ty);
      ShrinkBounds(fs.ty);
      FieldsShrink(fs.rest, next, size);
      FieldElementBounds(fs.rest, next, size, lost + Shrink(fs.ty));
    }
  }

  /** The layout offsets that are elements are those of the offsets where a leaf of the type starts; likewise for pointers. */
  lemma {:induction false} ElementIsLeaf(ty: Ty, p: int)
    requires Wf(ty) && 0 <= p < Size(ty)
    ensures Walk(ty, p).l in Elements(ty) <==> Leaf(ty, p, false)
    ensures Walk(ty, p).l in Pointers(ty) <==> Leaf(ty, p, true)
    decreases ty
  {
    match ty
    case Prim(_) =>
    case Ptr(_) =>
    case Arr(_, e) =>
      SizePositive(e);
      ElementIsLeaf(e, p % Size(e));
    case Struct(fs, n) =>
      FieldElementIsLeaf(fs, 0, n, p, 0);
  }

  lemma {:induction false} FieldElementIsLeaf(fs: Fields, from: nat, size: nat, p: int, lost: int)
    requires WfFields(fs, from, size) && from <= p < size
    ensures WalkFields(fs, p, lost).l in ElementsOf(fs, lost) <==> LeafIn(fs, p, false)
    ensures WalkFields(fs, p, lost).l in PointersOf(fs, lost) <==> LeafIn(fs, p, true)
    decreases fs
  {
    if fs.Field? {
      var next, l := fs.off + Size(fs.ty), WalkFields(fs, p, lost).l;
      MovedMember(Elements(fs.ty), fs.off - lost, l);
      MovedMember(Pointers(fs.ty), fs.off - lost, l);
      ElementBounds(fs.ty);
      ShrinkBounds(fs.ty);
      FieldElementBounds(fs.rest, next, size, lost + Shrink(fs.ty));
      if fs.off <= p < next {
        WalkBounds(fs.ty, p - fs.off);
        ElementIsLeaf(fs.ty, p - fs.off);
      } else if next <= p {
        WalkFieldsBounds(fs.rest, next, size, p, lost + Shrink(fs.ty));
        FieldElementIsLeaf(fs.rest, next, size, p, lost + Shrink(fs.ty));
      }
    }
  }

  /** What starts in an element of an array is what starts in the element type. */
  lemma LeafElement(n: nat, e: Ty, i: nat, q: nat, ptr: bool)
    requires Wf(e) && i < n && q < Size(e)
    ensures Leaf(Arr(n, e), i * Size(e) + q, ptr) <==> Leaf(e, q, ptr)
  {
    ElementOffset(i, q, Size(e));
  }

  /** What starts in a field of a struct is what starts in the type of the field. */
  lemma {:induction false} LeafField(fs: Fields, from: nat, size: nat, off: nat, ty: Ty, q: nat, ptr: bool)
    requires WfFields(fs, from, size) && HasField(fs, off, ty) && q < Size(ty)
    ensures from <= off && (LeafIn(fs, off + q, ptr) <==> Leaf(ty, q, ptr))
    decreases fs
  {
    FieldsEnd(fs.rest, fs.off + Size(fs.ty), size);
    if fs.off != off || fs.ty != ty {
      LeafField(fs.rest, fs.off + Size(fs.ty), size, off, ty, q, ptr);
    }
  }
}
