/**
 * Field-sensitive layouts in which every array is collapsed to one element
 * (src/PointerAnalysis/Models/MemoryModel/FieldSensitive/Layout): the structural walk of a type
 * and the arithmetic on the flattened sub-array maps that replaces it.
 */
module Layouts {

  /** The fields of a struct in order, with their offsets. */
  datatype Fields = NoField | Field(off: nat, ty: Ty, rest: Fields)

  /** A type with its allocation size. */
  datatype Ty =
    | Prim(size: nat)
    | Ptr(size: nat)
    | Arr(count: nat, elem: Ty)
    | Struct(fields: Fields, size: nat)

  function Size(ty: Ty): nat {
    match ty
    case Prim(n) => n
    case Ptr(n) => n
    case Arr(n, e) => n * Size(e)
    case Struct(_, n) => n
  }

  /** No zero-sized part, and fields in order without overlap, the first one at offset zero. */
  predicate Wf(ty: Ty) {
    match ty
    case Prim(n) => n > 0
    case Ptr(n) => n > 0
    case Arr(n, e) => n > 0 && Wf(e)
    case Struct(fs, n) => fs.Field? && fs.off == 0 && WfFields(fs, 0, n)
  }

  predicate WfFields(fs: Fields, from: nat, size: nat) {
    if fs.NoField? then from <= size
    else from <= fs.off && Wf(fs.ty) && WfFields(fs.rest, fs.off + Size(fs.ty), size)
  }

  /** The number of bytes a type loses when its arrays are collapsed. */
  function Shrink(ty: Ty): int {
    match ty
    case Prim(_) => 0
    case Ptr(_) => 0
    case Arr(n, e) => n * Size(e) - LSize(e)
    case Struct(fs, _) => ShrinkFields(fs)
  }

  function ShrinkFields(fs: Fields): int {
    if fs.NoField? then 0 else Shrink(fs.ty) + ShrinkFields(fs.rest)
  }

  /** The size of the collapsed layout. */
  function LSize(ty: Ty): int {
    match ty
    case Prim(n) => n
    case Ptr(n) => n
    case Arr(_, e) => LSize(e)
    case Struct(fs, n) => n - ShrinkFields(fs)
  }

  lemma {:induction false} SizePositive(ty: Ty)
    requires Wf(ty)
    ensures Size(ty) > 0
  {
    match ty
    case Prim(_) =>
    case Ptr(_) =>
    case Arr(n, e) =>
      SizePositive(e);
      assert n * Size(e) >= Size(e) by {
        AtLeastOnce(n, Size(e));
      }
    case Struct(fs, n) =>
      SizePositive(fs.ty);
      FieldsEnd(fs.rest, fs.off + Size(fs.ty), n);
  }

  lemma AtLeastOnce(n: nat, k: nat)
    requires n > 0
    ensures n * k >= k
  {
  }

  lemma {:induction false} FieldsEnd(fs: Fields, from: nat, size: nat)
    requires WfFields(fs, from, size)
    ensures from <= size
  {
    if fs.Field? {
      FieldsEnd(fs.rest, fs.off + Size(fs.ty), size);
    }
  }

  lemma {:induction false} ShrinkBounds(ty: Ty)
    requires Wf(ty)
    ensures 0 <= Shrink(ty) == Size(ty) - LSize(ty) && LSize(ty) > 0
    decreases ty
  {
    match ty
    case Prim(_) =>
    case Ptr(_) =>
    case Arr(n, e) =>
      ShrinkBounds(e);
      AtLeastOnce(n, Size(e));
    case Struct(fs, n) =>
      FieldsShrink(fs, 0, n);
  }

  /** The fields lose less than the bytes they take. */
  lemma {:induction false} FieldsShrink(fs: Fields, from: nat, size: nat)
    requires WfFields(fs, from, size)
    ensures 0 <= ShrinkFields(fs) <= size - from && (fs.Field? ==> ShrinkFields(fs) < size - from)
    decreases fs
  {
    if fs.Field? {
      ShrinkBounds(fs.ty);
      FieldsShrink(fs.rest, fs.off + Size(fs.ty), size);
    }
  }

  // ---- The structural walk -----------------------------------------------------------------

  /** A physical offset with all array indices set to zero, and the layout offset it has. */
  datatype Loc = Loc(p: int, l: int)

  /** Descend to the part of the type that contains offset `p`. */
  function Walk(ty: Ty, p: int): Loc {
    match ty
    case Prim(_) => Loc(p, p)
    case Ptr(_) => Loc(p, p)
    case Arr(_, e) => if Size(e) == 0 then Loc(p, p) else Walk(e, p % Size(e))
    case Struct(fs, _) => WalkFields(fs, p, 0)
  }

  /** Look for the field that contains `p`; the fields before `fs` have lost `lost` bytes. Padding stays. */
  function WalkFields(fs: Fields, p: int, lost: int): Loc {
    if fs.NoField? || p < fs.off then Loc(p, p - lost)
    else if p < fs.off + Size(fs.ty) then
      var w := Walk(fs.ty, p - fs.off);
      Loc(fs.off + w.p, fs.off - lost + w.l)
    else WalkFields(fs.rest, p, lost + Shrink(fs.ty))
  }

  /** All array indices on the way to offset `p` are zero. */
  predicate Zeroed(ty: Ty, p: int) {
    match ty
    case Prim(_) => true
    case Ptr(_) => true
    case Arr(_, e) => p < Size(e) && Zeroed(e, p)
    case Struct(fs, _) => ZeroedFields(fs, p)
  }

  predicate ZeroedFields(fs: Fields, p: int) {
    if fs.NoField? || p < fs.off then true
    else if p < fs.off + Size(fs.ty) then Zeroed(fs.ty, p - fs.off)
    else ZeroedFields(fs.rest, p)
  }

  lemma {:induction false} WalkZero(ty: Ty)
    requires Wf(ty)
    ensures Walk(ty, 0) == Loc(0, 0)
  {
    match ty
    case Prim(_) =>
    case Ptr(_) =>
    case Arr(_, e) =>
      WalkZero(e);
      SizePositive(e);
    case Struct(fs, _) =>
      WalkZero(fs.ty);
      SizePositive(fs.ty);
  }

  /** The walk stays inside the type, sets all indices to zero and keeps an offset that has none. */
  lemma {:induction false} WalkBounds(ty: Ty, p: int)
    requires Wf(ty) && 0 <= p < Size(ty)
    ensures 0 <= Walk(ty, p).p <= p && 0 <= Walk(ty, p).l < LSize(ty)
    ensures Zeroed(ty, Walk(ty, p).p) && (Zeroed(ty, p) ==> Walk(ty, p).p == p)
    decreases ty
  {
    match ty
    case Prim(_) =>
    case Ptr(_) =>
    case Arr(_, e) =>
      SizePositive(e);
      WalkBounds(e, p % Size(e));
      ModSmall(p, Size(e));
    case Struct(fs, n) =>
      WalkFieldsBounds(fs, 0, n, p, 0);
  }

  lemma ModSmall(p: nat, k: nat)
    requires k > 0
    ensures p % k <= p && (p < k ==> p % k == p)
  {
    if p < k {
      assert p % k == p;
    }
  }

  lemma {:induction false} WalkFieldsBounds(fs: Fields, from: nat, size: nat, p: int, lost: int)
    requires WfFields(fs, from, size) && from <= p < size
    ensures from <= WalkFields(fs, p, lost).p <= p
    ensures from - lost <= WalkFields(fs, p, lost).l < size - lost - ShrinkFields(fs)
    ensures ZeroedFields(fs, WalkFields(fs, p, lost).p) && (ZeroedFields(fs, p) ==> WalkFields(fs, p, lost).p == p)
    decreases fs
  {
    if fs.Field? {
      var next := fs.off + Size(fs.ty);
      FieldsShrink(fs.rest, next, size);
      FieldsEnd(fs.rest, next, size);
      ShrinkBounds(fs.ty);
      if fs.off <= p < next {
        WalkBounds(fs.ty, p - fs.off);
      } else if next <= p {
        WalkFieldsBounds(fs.rest, next, size, p, lost + Shrink(fs.ty));
      }
    }
  }

  /** Walking twice changes nothing. */
  lemma WalkTwice(ty: Ty, p: int)
    requires Wf(ty) && 0 <= p < Size(ty)
    ensures Walk(ty, Walk(ty, p).p) == Walk(ty, p)
  {
    WalkTwiceL(ty, p);
    WalkBounds(ty, p);
    WalkBounds(ty, Walk(ty, p).p);
  }

  lemma {:induction false} WalkTwiceL(ty: Ty, p: int)
    requires Wf(ty) && 0 <= p < Size(ty)
    ensures Walk(ty, Walk(ty, p).p).l == Walk(ty, p).l
    decreases ty
  {
    match ty
    case Prim(_) =>
    case Ptr(_) =>
    case Arr(_, e) =>
      SizePositive(e);
      WalkBounds(e, p % Size(e));
      ModSmall(Walk(e, p % Size(e)).p, Size(e));
      WalkTwiceL(e, p % Size(e));
    case Struct(fs, n) =>
      WalkFieldsTwice(fs, 0, n, p, 0);
  }

  lemma {:induction false} WalkFieldsTwice(fs: Fields, from: nat, size: nat, p: int, lost: int)
    requires WfFields(fs, from, size) && from <= p < size
    ensures WalkFields(fs, WalkFields(fs, p, lost).p, lost).l == WalkFields(fs, p, lost).l
    decreases fs
  {
    if fs.Field? {
      var next := fs.off + Size(fs.ty);
      if fs.off <= p < next {
        WalkBounds(fs.ty, p - fs.off);
        WalkTwiceL(fs.ty, p - fs.off);
      } else if next <= p {
        WalkFieldsBounds(fs.rest, next, size, p, lost + Shrink(fs.ty));
        WalkFieldsTwice(fs.rest, next, size, p, lost + Shrink(fs.ty));
      }
    }
  }

  /** Layout offsets keep the order of offsets without array indices. */
  lemma {:induction false} WalkIncreases(ty: Ty, p: int, q: int)
    requires Wf(ty) && 0 <= p < q < Size(ty) && Zeroed(ty, p) && Zeroed(ty, q)
    ensures Walk(ty, p).l < Walk(ty, q).l
    decreases ty
  {
    match ty
    case Prim(_) =>
    case Ptr(_) =>
    case Arr(_, e) =>
      SizePositive(e);
      ModSmall(p, Size(e));
      ModSmall(q, Size(e));
      WalkIncreases(e, p, q);
    case Struct(fs, n) =>
      WalkFieldsIncreases(fs, 0, n, p, q, 0);
  }

  lemma {:induction false} WalkFieldsIncreases(fs: Fields, from: nat, size: nat, p: int, q: int, lost: int)
    requires WfFields(fs, from, size) && from <= p < q < size && ZeroedFields(fs, p) && ZeroedFields(fs, q)
    ensures WalkFields(fs, p, lost).l < WalkFields(fs, q, lost).l
    decreases fs
  {
    if fs.Field? {
      var next := fs.off + Size(fs.ty);
      ShrinkBounds(fs.ty);
      if fs.off <= p < next {
        WalkBounds(fs.ty, p - fs.off);
      }
      if next <= q {
        WalkFieldsBounds(fs.rest, next, size, q, lost + Shrink(fs.ty));
      } else if fs.off <= q {
        WalkBounds(fs.ty, q - fs.off);
      }
      if fs.off <= p && q < next {
        WalkIncreases(fs.ty, p - fs.off, q - fs.off);
      } else if next <= p {
        WalkFieldsIncreases(fs.rest, next, size, p, q, lost + Shrink(fs.ty));
      }
    }
  }

  /** Every layout offset belongs to an offset without array indices. */
  lemma {:induction false} WalkOnto(ty: Ty, l: int) returns (p: int)
    requires Wf(ty) && 0 <= l < LSize(ty)
    ensures 0 <= p < Size(ty) && Zeroed(ty, p) && Walk(ty, p) == Loc(p, l)
    decreases ty
  {
    ShrinkBounds(ty);
    match ty {
      case Prim(_) =>
        p := l;
      case Ptr(_) =>
        p := l;
      case Arr(n, e) =>
        p := WalkOnto(e, l);
        ModSmall(p, Size(e));
        AtLeastOnce(n, Size(e));
      case Struct(fs, n) =>
        p := WalkFieldsOnto(fs, 0, n, l, 0);
    }
  }

  lemma {:induction false} WalkFieldsOnto(fs: Fields, from: nat, size: nat, l: int, lost: int) returns (p: int)
    requires WfFields(fs, from, size) && from - lost <= l < size - lost - ShrinkFields(fs)
    ensures from <= p < size && ZeroedFields(fs, p) && WalkFields(fs, p, lost) == Loc(p, l)
    decreases fs
  {
    if fs.NoField? || l < fs.off - lost {
      p := l + lost;
      if fs.Field? {
        FieldsEnd(fs.rest, fs.off + Size(fs.ty), size);
      }
    } else {
      var next := fs.off + Size(fs.ty);
      FieldsEnd(fs.rest, next, size);
      ShrinkBounds(fs.ty);
      if l < fs.off - lost + LSize(fs.ty) {
        var q := WalkOnto(fs.ty, l - (fs.off - lost));
        p := fs.off + q;
      } else {
        p := WalkFieldsOnto(fs.rest, next, size, l, lost + Shrink(fs.ty));
      }
    }
  }

  // ---- Elements and fields -----------------------------------------------------------------

  /** One of the fields is at offset `off` and has type `ty`. */
  predicate HasField(fs: Fields, off: nat, ty: Ty) {
    fs.Field? && ((fs.off == off && fs.ty == ty) || HasField(fs.rest, off, ty))
  }

  /** All elements of an array are walked as its first one. */
  lemma WalkElement(n: nat, e: Ty, i: nat, q: nat)
    requires Wf(e) && i < n && q < Size(e)
    ensures Walk(Arr(n, e), i * Size(e) + q) == Walk(e, q)
  {
    ElementOffset(i, q, Size(e));
  }

  lemma ElementOffset(i: nat, q: nat, k: nat)
    requires q < k
    ensures (i * k + q) % k == q
  {
    var x := i * k + q;
    var d, r := x / k, x % k;
    assert x == d * k + r;
    QuotientUnique(i, q, d, r, k);
  }

  lemma QuotientUnique(i: nat, q: nat, d: nat, r: nat, k: nat)
    requires q < k && r < k && i * k + q == d * k + r
    ensures i == d && q == r
  {
    if i > d {
      FurtherBy(i, d, k);
    } else if d > i {
      FurtherBy(d, i, k);
    }
  }

  lemma FurtherBy(i: nat, d: nat, k: nat)
    requires i > d
    ensures i * k >= d * k + k
  {
    AtLeastOnce(i - d, k);
    assert (i - d) * k == i * k - d * k;
  }

  /** Inside a field, the walk of a struct is the walk of the field, moved to where the field is. */
  lemma {:induction false} WalkField(fs: Fields, from: nat, size: nat, off: nat, ty: Ty, q: nat, lost: int)
    requires WfFields(fs, from, size) && HasField(fs, off, ty) && q < Size(ty)
    ensures from <= off && off + Size(ty) <= size && WalkFields(fs, off + q, lost).p == off + Walk(ty, q).p
    ensures ZeroedFields(fs, off + q) <==> Zeroed(ty, q)
    decreases fs
  {
    FieldsEnd(fs.rest, fs.off + Size(fs.ty), size);
    if fs.off != off || fs.ty != ty {
      WalkField(fs.rest, fs.off + Size(fs.ty), size, off, ty, q, lost + Shrink(fs.ty));
    }
  }
}
