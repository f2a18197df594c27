/**
 * Memory blocks that create the objects of their fields on demand (MemBlock.h:335-389), and the
 * logical index of a layout (Layout/MemLayout.h:70-109).
 */
module MemBlocks {
  import opened Sets
  import opened Layouts
  import opened LayoutManagers

  /** How many elements come before layout offset `l`. */
  ghost function Rank(S: set<int>, l: int): nat {
    |Below(S, l)|
  }

  ghost function Below(S: set<int>, l: int): set<int> {
    set e | e in S && e < l
  }

  /** The rank is an order-preserving numbering of the elements from zero on. */
  lemma RankOrder(S: set<int>, l: int, m: int)
    requires l in S && m in S && l < m
    ensures Rank(S, l) < Rank(S, m) < |S|
  {
    assert Below(S, l) + {l} <= Below(S, m);
    SubsetSize(Below(S, l) + {l}, Below(S, m));
    assert Below(S, m) + {m} <= S;
    SubsetSize(Below(S, m) + {m}, S);
  }

  lemma RankBound(S: set<int>, l: int)
    requires l in S
    ensures Rank(S, l) < |S|
  {
    assert Below(S, l) + {l} <= S;
    SubsetSize(Below(S, l) + {l}, S);
  }

  lemma RankInjective(S: set<int>, l: int, m: int)
    requires l in S && m in S && Rank(S, l) == Rank(S, m)
    ensures l == m
  {
    if l < m {
      RankOrder(S, l, m);
    } else if m < l {
      RankOrder(S, m, l);
    }
  }

  /** Every number below the number of elements is the rank of one of them. */
  lemma {:induction false} RankOnto(S: set<int>, k: nat) returns (l: int)
    requires k < |S|
    ensures l in S && Rank(S, l) == k
  {
    var m := Greatest(S);
    if k == |S| - 1 {
      l := m;
      assert Below(S, m) == S - {m};
    } else {
      l := RankOnto(S - {m}, k);
      assert Below(S - {m}, l) == Below(S, l);
    }
  }

  lemma {:induction false} Greatest(S: set<int>) returns (m: int)
    requires |S| > 0
    ensures m in S && forall e :: e in S ==> e <= m
    decreases |S|
  {
    var x := Pick(S);
    var R := S - {x};
    m := x;
    if |R| > 0 {
      var n := Greatest(R);
      m := if n > x then n else x;
    }
    forall e | e in S
      ensures e <= m
    {
      assert e == x || e in R;
    }
  }

  /** `index` numbers the elements in order and marks all other offsets with -1. */
  ghost predicate IsLogicalIndex(S: set<int>, index: seq<int>) {
    && (forall l :: l in S ==> 0 <= l < |index|)
    && (forall l :: 0 <= l < |index| ==> index[l] == if l in S then Rank(S, l) else -1)
  }

  /** `cacheIntoBitVector`: the elements in ascending order get consecutive numbers, up to the last one. */
  method CacheIntoBitVector(S: set<int>, size: nat) returns (index: seq<int>)
    requires forall l :: l in S ==> 0 <= l < size
    ensures IsLogicalIndex(S, index) && |index| <= size
  {
    var last := size;
    while last > 0 && last - 1 !in S
      invariant 0 <= last <= size && forall l :: l in S ==> 0 <= l < last
    {
      last := last - 1;
    }
    index := NumberElements(S, last);
  }

  method NumberElements(S: set<int>, last: nat) returns (index: seq<int>)
    requires forall l :: l in S ==> 0 <= l < last
    ensures IsLogicalIndex(S, index) && |index| == last
  {
    index := [];
    var i := 0;
    assert Below(S, 0) == {};
    while |index| < last
      invariant |index| <= last && i == Rank(S, |index|)
      invariant forall l :: 0 <= l < |index| ==> index[l] == if l in S then Rank(S, l) else -1
    {
      RankNext(S, |index|);
      if |index| in S {
        index := index + [i];
        i := i + 1;
      } else {
        index := index + [-1];
      }
    }
  }

  lemma RankNext(S: set<int>, l: int)
    ensures Rank(S, l + 1) == Rank(S, l) + if l in S then 1 else 0
  {
    if l in S {
      assert Below(S, l + 1) == Below(S, l) + {l};
    } else {
      assert Below(S, l + 1) == Below(S, l);
    }
  }

  /** `getLogicalOffset`. */
  function GetLogicalOffset(index: seq<int>, l: nat): (r: int)
    ensures forall S :: IsLogicalIndex(S, index) ==> r == if l in S then Rank(S, l) else -1
  {
    if l >= |index| then -1 else index[l]
  }

  /** An object for one field, with the physical offset it stands for. */
  class FSObject {
    const pOffset: nat

    constructor (pOffset: nat)
      ensures this.pOffset == pOffset
    {
      this.pOffset := pOffset;
    }
  }

  /** The slot of the field at physical offset `p`. */
  ghost function Slot(ty: Ty, p: int): nat {
    Rank(Elements(ty), Walk(ty, p).l)
  }

  /** The object in slot `i` stands for the offset of that field in the first element of every array. */
  ghost predicate Fits(ty: Ty, i: nat, o: FSObject) {
    o.pOffset < Size(ty) && Leaf(ty, o.pOffset, false) && Walk(ty, o.pOffset).p == o.pOffset && Slot(ty, o.pOffset) == i
  }

  /** Two offsets where a leaf starts have the same slot exactly if they agree once all array indices are zero. */
  lemma SameSlot(ty: Ty, p: int, q: int)
    requires Wf(ty) && 0 <= p < Size(ty) && 0 <= q < Size(ty) && Leaf(ty, p, false) && Leaf(ty, q, false)
    ensures Slot(ty, p) == Slot(ty, q) <==> Walk(ty, p).p == Walk(ty, q).p
  {
    ElementIsLeaf(ty, p);
    ElementIsLeaf(ty, q);
    WalkTwice(ty, p);
    WalkTwice(ty, q);
    WalkBounds(ty, p);
    WalkBounds(ty, q);
    hide Elements, Walk, Leaf, Rank;
    if Slot(ty, p) == Slot(ty, q) {
      RankInjective(Elements(ty), Walk(ty, p).l, Walk(ty, q).l);
      var pp, qq := Walk(ty, p).p, Walk(ty, q).p;
      if pp < qq {
        WalkIncreases(ty, pp, qq);
      } else if qq < pp {
        WalkIncreases(ty, qq, pp);
      }
    }
  }

  /** Offset zero is where the first element starts. */
  lemma {:induction false} ZeroIsLeaf(ty: Ty)
    requires Wf(ty)
    ensures Leaf(ty, 0, false)
  {
    match ty
    case Prim(_) =>
    case Ptr(_) =>
    case Arr(_, e) =>
      ZeroIsLeaf(e);
      SizePositive(e);
    case Struct(fs, _) =>
      ZeroIsLeaf(fs.ty);
      SizePositive(fs.ty);
  }

  lemma ZeroSlot(ty: Ty)
    requires Wf(ty)
    ensures Walk(ty, 0) == Loc(0, 0) && Slot(ty, 0) == 0 && Size(ty) > 0 && Leaf(ty, 0, false)
  {
    WalkZero(ty);
    ZeroIsLeaf(ty);
    SizePositive(ty);
    ElementBounds(ty);
    assert Below(Elements(ty), 0) == {};
  }

  class AggregateMemBlock {
    const layout: MemLayout
    const index: seq<int>
    ghost const ty: Ty
    var fieldObjs: seq<FSObject?>

    ghost predicate Valid()
      reads this
    {
      && Wf(ty) && layout == LayoutOf(ty) && IsLogicalIndex(layout.elements, index) && |index| <= layout.maxLOffset
      && |fieldObjs| == |layout.elements|
      && forall i :: 0 <= i < |fieldObjs| && fieldObjs[i] != null ==> Fits(ty, i, fieldObjs[i])
    }

    /** One slot per element, all empty; a zero-sized block would get one slot. */
    constructor (layout: MemLayout, ghost ty: Ty)
      requires Wf(ty) && layout == LayoutOf(ty)
      ensures Valid() && this.ty == ty && forall i :: 0 <= i < |fieldObjs| ==> fieldObjs[i] == null
    {
      ElementBounds(ty);
      ShrinkBounds(ty);
      ZeroSlot(ty);
      ElementIsLeaf(ty, 0);
      this.layout := layout;
      this.ty := ty;
      var cached := CacheIntoBitVector(layout.elements, layout.maxLOffset);
      index := cached;
      fieldObjs := seq(if |layout.elements| == 0 then 1 else |layout.elements|, _ => null);
    }

    /** The object in a slot, created on first use. */
    method ObjectAt(i: nat, p: nat) returns (o: FSObject)
      requires Valid() && i < |fieldObjs| && p < Size(ty) && Leaf(ty, p, false) && Walk(ty, p).p == p && Slot(ty, p) == i
      modifies this
      ensures Valid() && |fieldObjs| == |old(fieldObjs)| && fieldObjs[i] == o && o.pOffset == p
      ensures forall k :: 0 <= k < |fieldObjs| && old(fieldObjs[k]) != null ==> fieldObjs[k] == old(fieldObjs[k])
    {
      if fieldObjs[i] == null {
        var created := new FSObject(p);
        fieldObjs := fieldObjs[i := created];
      }
      o := fieldObjs[i];
      SameSlot(ty, o.pOffset, p);
    }

    /** `indexMemoryBlock`: an object exactly for the offsets where a field starts, whichever array elements they lie in. */
    method IndexMemoryBlock(pOffset: nat, ensurePtr: bool) returns (o: FSObject?)
      requires Valid()
      modifies this
      ensures Valid() && |fieldObjs| == |old(fieldObjs)|
      ensures o != null <==> pOffset < Size(ty) && Leaf(ty, pOffset, ensurePtr)
      ensures o != null ==> o.pOffset == Walk(ty, pOffset).p && Slot(ty, pOffset) < |fieldObjs| && fieldObjs[Slot(ty, pOffset)] == o
      ensures forall k :: 0 <= k < |fieldObjs| && old(fieldObjs[k]) != null ==> fieldObjs[k] == old(fieldObjs[k])
    {
      ZeroSlot(ty);
      ShrinkBounds(ty);
      ElementBounds(ty);
      if pOffset < Size(ty) {
        ElementIsLeaf(ty, pOffset);
        WalkTwice(ty, pOffset);
        WalkBounds(ty, pOffset);
        ElementIsLeaf(ty, Walk(ty, pOffset).p);
        if Leaf(ty, pOffset, false) {
          RankBound(layout.elements, Walk(ty, pOffset).l);
        }
      }
      hide Leaf, Walk, Elements, Pointers, Rank, IsLogicalIndex;
      if pOffset == 0 {
        if !ensurePtr || 0 in layout.pointers {
          o := ObjectAt(0, 0);
          return;
        }
        return null;
      }
      var lOffset, p := IndexPhysicalOffset(layout, pOffset, ty);
      if lOffset.Some? {
        var fieldNum := GetLogicalOffset(index, lOffset.value);
        if fieldNum >= 0 && (!ensurePtr || lOffset.value in layout.pointers) {
          o := ObjectAt(fieldNum, p);
          return;
        }
      }
      return null;
    }
  }

  datatype Lookup = Lookup(pOffset: nat, ensurePtr: bool)

  /**
   * Over any sequence of lookups, in any order, two of them give the same object exactly if their offsets
   * agree once all array indices are zero.
   */
  method Lookups(block: AggregateMemBlock, asked: seq<Lookup>) returns (objs: seq<FSObject?>)
    requires block.Valid()
    modifies block
    ensures block.Valid() && |objs| == |asked|
    ensures forall i :: 0 <= i < |asked| ==>
      (objs[i] != null <==> asked[i].pOffset < Size(block.ty) && Leaf(block.ty, asked[i].pOffset, asked[i].ensurePtr))
    ensures forall i :: 0 <= i < |asked| && objs[i] != null ==> objs[i].pOffset == Walk(block.ty, asked[i].pOffset).p
    ensures forall i, j :: 0 <= i < |asked| && 0 <= j < |asked| && objs[i] != null && objs[j] != null ==>
      (objs[i] == objs[j] <==> Walk(block.ty, asked[i].pOffset).p == Walk(block.ty, asked[j].pOffset).p)
  {
    objs := [];
    var k := 0;
    while k < |asked|
      invariant k <= |asked| == k + (|asked| - k) && |objs| == k && block.Valid() && |block.fieldObjs| == |old(block.fieldObjs)|
      invariant forall i :: 0 <= i < k ==> Found(block, asked[i], objs[i])
    {
      var o := block.IndexMemoryBlock(asked[k].pOffset, asked[k].ensurePtr);
      objs := objs + [o];
      k := k + 1;
    }
    forall i, j | 0 <= i < |asked| && 0 <= j < |asked| && objs[i] != null && objs[j] != null
      ensures objs[i] == objs[j] <==> Walk(block.ty, asked[i].pOffset).p == Walk(block.ty, asked[j].pOffset).p
    {
      LeafOfPointer(block.ty, asked[i].pOffset, asked[i].ensurePtr);
      LeafOfPointer(block.ty, asked[j].pOffset, asked[j].ensurePtr);
      SameSlot(block.ty, asked[i].pOffset, asked[j].pOffset);
    }
  }

  ghost predicate Found(block: AggregateMemBlock, a: Lookup, o: FSObject?)
    reads block
  {
    && (o != null <==> a.pOffset < Size(block.ty) && Leaf(block.ty, a.pOffset, a.ensurePtr))
    && (o != null ==>
      o.pOffset == Walk(block.ty, a.pOffset).p && Slot(block.ty, a.pOffset) < |block.fieldObjs| && block.fieldObjs[Slot(block.ty, a.pOffset)] == o)
  }

  lemma LeafOfPointer(ty: Ty, p: nat, ptr: bool)
    requires Wf(ty) && p < Size(ty) && Leaf(ty, p, ptr)
    ensures Leaf(ty, p, false)
  {
    ElementIsLeaf(ty, p);
    ElementBounds(ty);
  }
}
