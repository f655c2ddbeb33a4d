/** Multi-dimensional arrays as the marshaller sees them: shapes, multi-indices, the column-major
    (Fortran) order used on the wire, the row-major (C) order numpy uses by default, and strided
    numpy buffers. */
module ColumnMajor {

  /** The number of elements of an array of the given shape. */
  function Product(shape: seq<nat>): nat {
    if shape == [] then 1 else shape[0] * Product(shape[1..])
  }

  /** `idx` addresses an element of an array of the given shape. */
  predicate InBounds(shape: seq<nat>, idx: seq<nat>) {
    |idx| == |shape| && forall d :: 0 <= d < |shape| ==> idx[d] < shape[d]
  }

  /** Position of an element when the first index varies fastest. */
  function ColumnIndex(shape: seq<nat>, idx: seq<nat>): nat
    requires |idx| == |shape|
  {
    if shape == [] then 0 else idx[0] + shape[0] * ColumnIndex(shape[1..], idx[1..])
  }

  /** The multi-index at a column-major position. */
  function ColumnMulti(shape: seq<nat>, k: nat): (idx: seq<nat>)
    requires k < Product(shape)
    ensures |idx| == |shape|
  {
    if shape == [] then []
    else
      LemmaDivBelow(k, shape[0], Product(shape[1..]));
      [k % shape[0]] + ColumnMulti(shape[1..], k / shape[0])
  }

  /** Position of an element when the last index varies fastest. */
  function RowIndex(shape: seq<nat>, idx: seq<nat>): nat
    requires |idx| == |shape|
  {
    if shape == [] then 0 else idx[0] * Product(shape[1..]) + RowIndex(shape[1..], idx[1..])
  }

  /** The multi-index at a row-major position. */
  function RowMulti(shape: seq<nat>, k: nat): (idx: seq<nat>)
    requires k < Product(shape)
    ensures |idx| == |shape|
  {
    if shape == [] then []
    else
      var p := Product(shape[1..]);
      LemmaDivBelow(k, p, shape[0]);
      [k / p] + RowMulti(shape[1..], k % p)
  }

  // ----- arithmetic

  lemma MulMonotone(a: nat, x: int, y: int)
    requires x <= y
    ensures a * x <= a * y
  {
    assert a * (y - x) >= 0;
  }

  lemma LemmaDivBelow(k: nat, a: nat, b: nat)
    requires k < a * b || k < b * a
    ensures a > 0 && b > 0 && k / a < b && k % a < a
  {
    if k / a >= b {
      MulMonotone(a, b, k / a);
      assert false;
    }
  }

  lemma LemmaDivMod(k: nat, a: nat)
    requires a > 0
    ensures k == k % a + a * (k / a) && k == (k / a) * a + k % a
  {
  }

  lemma LemmaMixedRadix(lo: nat, a: nat, hi: nat, b: nat)
    requires lo < a && hi < b
    ensures lo + a * hi < a * b
    ensures (lo + a * hi) % a == lo && (lo + a * hi) / a == hi
  {
    MulMonotone(a, hi, b - 1);
    LemmaDivModUnique(lo + a * hi, a, hi, lo);
  }

  lemma LemmaDivModUnique(k: nat, a: nat, q: nat, r: nat)
    requires r < a && k == r + a * q
    ensures k / a == q && k % a == r
  {
    var p := k / a;
    if p < q {
      MulMonotone(a, p + 1, q);
      assert false;
    } else if p > q {
      MulMonotone(a, q + 1, p);
      assert false;
    }
  }

  // ----- column-major flattening is a bijection

  /** An in-bounds multi-index has a position below the element count, and that position leads
      back to it. */
  lemma {:induction false} ColumnIndexInverse(shape: seq<nat>, idx: seq<nat>)
    requires InBounds(shape, idx)
    ensures ColumnIndex(shape, idx) < Product(shape)
    ensures ColumnMulti(shape, ColumnIndex(shape, idx)) == idx
  {
    if shape != [] {
      ColumnIndexInverse(shape[1..], idx[1..]);
      LemmaMixedRadix(idx[0], shape[0], ColumnIndex(shape[1..], idx[1..]), Product(shape[1..]));
    }
  }

  /** Every position below the element count is the position of exactly the in-bounds multi-index
      computed for it. */
  lemma {:induction false} ColumnMultiInverse(shape: seq<nat>, k: nat)
    requires k < Product(shape)
    ensures InBounds(shape, ColumnMulti(shape, k))
    ensures ColumnIndex(shape, ColumnMulti(shape, k)) == k
  {
    if shape != [] {
      LemmaDivBelow(k, shape[0], Product(shape[1..]));
      var lo, hi := k % shape[0], k / shape[0];
      ColumnMultiInverse(shape[1..], hi);
      var idx := ColumnMulti(shape, k);
      assert idx[0] == lo && idx[1..] == ColumnMulti(shape[1..], hi);
      LemmaDivMod(k, shape[0]);
    }
  }

  lemma {:induction false} RowIndexInverse(shape: seq<nat>, idx: seq<nat>)
    requires InBounds(shape, idx)
    ensures RowIndex(shape, idx) < Product(shape)
    ensures RowMulti(shape, RowIndex(shape, idx)) == idx
  {
    if shape != [] {
      RowIndexInverse(shape[1..], idx[1..]);
      LemmaMixedRadix(RowIndex(shape[1..], idx[1..]), Product(shape[1..]), idx[0], shape[0]);
    }
  }

  lemma {:induction false} RowMultiInverse(shape: seq<nat>, k: nat)
    requires k < Product(shape)
    ensures InBounds(shape, RowMulti(shape, k))
    ensures RowIndex(shape, RowMulti(shape, k)) == k
  {
    if shape != [] {
      var p := Product(shape[1..]);
      LemmaDivBelow(k, p, shape[0]);
      var hi, lo := k / p, k % p;
      RowMultiInverse(shape[1..], lo);
      var idx := RowMulti(shape, k);
      assert idx[0] == hi && idx[1..] == RowMulti(shape[1..], lo);
      LemmaDivMod(k, p);
    }
  }

  // ----- reordering whole element sequences

  /** The column-major listing of an array whose row-major listing is `s`. */
  function ToColumnMajor<T>(shape: seq<nat>, s: seq<T>): (r: seq<T>)
    requires |s| == Product(shape)
    ensures |r| == |s| && forall x | x in r :: x in s
  {
    seq(|s|, k requires 0 <= k < |s| => s[RowPosition(shape, k)])
  }

  /** The row-major listing of an array whose column-major listing is `s`. */
  function FromColumnMajor<T>(shape: seq<nat>, s: seq<T>): (r: seq<T>)
    requires |s| == Product(shape)
    ensures |r| == |s| && forall x | x in r :: x in s
  {
    seq(|s|, k requires 0 <= k < |s| => s[ColumnPosition(shape, k)])
  }

  /** The listing put on the wire for a row-major array. Every array has as many elements as its
      shape says; the function leaves anything else as it is. */
  function Flattened<T>(shape: seq<nat>, s: seq<T>): (r: seq<T>)
    ensures |r| == |s| && forall x | x in r :: x in s
    ensures |s| == Product(shape) ==> r == ToColumnMajor(shape, s)
  {
    if |s| == Product(shape) then ToColumnMajor(shape, s) else s
  }

  function RowPosition(shape: seq<nat>, k: nat): (p: nat)
    requires k < Product(shape)
    ensures p < Product(shape)
  {
    ColumnMultiInverse(shape, k);
    RowIndexInverse(shape, ColumnMulti(shape, k));
    RowIndex(shape, ColumnMulti(shape, k))
  }

  function ColumnPosition(shape: seq<nat>, k: nat): (p: nat)
    requires k < Product(shape)
    ensures p < Product(shape)
  {
    RowMultiInverse(shape, k);
    ColumnIndexInverse(shape, RowMulti(shape, k));
    ColumnIndex(shape, RowMulti(shape, k))
  }

  /** The row-major positions of an array's elements, listed in column-major order. */
  function FortranOrder(shape: seq<nat>): (order: seq<nat>)
    ensures |order| == Product(shape) && forall p | p in order :: p < Product(shape)
    ensures forall k | 0 <= k < |order| :: order[k] == RowPosition(shape, k)
  {
    seq(Product(shape), k requires 0 <= k < Product(shape) => RowPosition(shape, k))
  }

  /** Picking elements by position. */
  function Pick<T>(s: seq<T>, order: seq<nat>): (r: seq<T>)
    requires forall p | p in order :: p < |s|
    ensures |r| == |order| && forall k | 0 <= k < |order| :: order[k] in order && r[k] == s[order[k]]
  {
    seq(|order|, k requires 0 <= k < |order| => assert order[k] in order; s[order[k]])
  }

  /** The column-major order lists every position, and picking by it flattens the array. */
  lemma FortranOrderCovers(shape: seq<nat>)
    ensures forall p | 0 <= p < Product(shape) :: p in FortranOrder(shape)
  {
    forall p | 0 <= p < Product(shape) ensures p in FortranOrder(shape) {
      PositionsInverse(shape, p);
      assert FortranOrder(shape)[ColumnPosition(shape, p)] == p;
    }
  }

  lemma PickFlattens<T>(shape: seq<nat>, s: seq<T>)
    requires |s| == Product(shape)
    ensures Pick(s, FortranOrder(shape)) == Flattened(shape, s)
  {
  }

  lemma FortranOrderOne(n: nat)
    ensures |FortranOrder([n])| == n && forall k | 0 <= k < n :: FortranOrder([n])[k] == k
  {
    ProductOne(n);
    forall k | 0 <= k < n ensures RowPosition([n], k) == k {
      OneDimensionalPosition(n, k);
    }
  }

  lemma PositionsInverse(shape: seq<nat>, k: nat)
    requires k < Product(shape)
    ensures ColumnPosition(shape, RowPosition(shape, k)) == k
    ensures RowPosition(shape, ColumnPosition(shape, k)) == k
  {
    ColumnMultiInverse(shape, k);
    RowIndexInverse(shape, ColumnMulti(shape, k));
    RowMultiInverse(shape, k);
    ColumnIndexInverse(shape, RowMulti(shape, k));
  }

  /** Flattening in Fortran order and reshaping in Fortran order undo each other, for any rank. */
  lemma ReorderInverse<T>(shape: seq<nat>, s: seq<T>)
    requires |s| == Product(shape)
    ensures FromColumnMajor(shape, ToColumnMajor(shape, s)) == s
    ensures ToColumnMajor(shape, FromColumnMajor(shape, s)) == s
  {
    forall k | 0 <= k < |s|
      ensures FromColumnMajor(shape, ToColumnMajor(shape, s))[k] == s[k]
      ensures ToColumnMajor(shape, FromColumnMajor(shape, s))[k] == s[k]
    {
      PositionsInverse(shape, k);
    }
  }

  lemma ProductOne(n: nat)
    ensures Product([n]) == n
  {
    assert [n][1..] == [];
  }

  lemma OneDimensionalPosition(n: nat, k: nat)
    requires k < n
    ensures Product([n]) == n && RowPosition([n], k) == k && ColumnPosition([n], k) == k
  {
    assert [n][1..] == [] && [k][1..] == [];
    assert Product([n]) == n * 1;
    LemmaDivModUnique(k, n, 0, k);
    LemmaDivModUnique(k, 1, k, 0);
    assert ColumnMulti([n], k) == [k % n] + ColumnMulti([], 0) == [k];
    assert RowMulti([n], k) == [k / 1] + RowMulti([], 0) == [k];
    assert RowIndex([n], [k]) == k * 1 + RowIndex([], []);
    assert ColumnIndex([n], [k]) == k + n * ColumnIndex([], []);
  }

  /** A one-dimensional array is listed the same way in both orders. */
  lemma OneDimensionalOrder<T>(n: nat, s: seq<T>)
    requires |s| == n
    ensures Product([n]) == n
    ensures ToColumnMajor([n], s) == s && FromColumnMajor([n], s) == s
  {
    assert [n][1..] == [];
    assert Product([n]) == n * 1;
    forall k | 0 <= k < n
      ensures RowPosition([n], k) == k && ColumnPosition([n], k) == k
    {
      OneDimensionalPosition(n, k);
    }
  }

  // ----- numpy buffers

  /** A numpy array: a block of memory and a stride, in elements, for every dimension. */
  datatype View<T> = View(memory: seq<T>, offset: int, shape: seq<nat>, strides: seq<int>)

  function StrideOffset(strides: seq<int>, idx: seq<nat>): int
    requires |idx| == |strides|
  {
    if strides == [] then 0 else strides[0] * idx[0] + StrideOffset(strides[1..], idx[1..])
  }

  /** Every element of the view lies inside its memory. */
  ghost predicate ValidView<T>(v: View<T>) {
    && |v.strides| == |v.shape|
    && forall idx {:trigger InBounds(v.shape, idx)} | InBounds(v.shape, idx) ::
         0 <= v.offset + StrideOffset(v.strides, idx) < |v.memory|
  }

  function Element<T>(v: View<T>, idx: seq<nat>): T
    requires ValidView(v) && InBounds(v.shape, idx)
  {
    v.memory[v.offset + StrideOffset(v.strides, idx)]
  }

  /** numpy's Fortran-contiguity flag: each stride is the product of the dimensions before it, the
      stride of a dimension of length one being immaterial. */
  predicate FortranContiguous(shape: seq<nat>, strides: seq<int>, expected: nat)
    requires |strides| == |shape|
  {
    shape == [] ||
    ((shape[0] == 1 || strides[0] == expected) &&
     FortranContiguous(shape[1..], strides[1..], expected * shape[0]))
  }

  lemma {:induction false} FortranStrides(shape: seq<nat>, strides: seq<int>, expected: nat, idx: seq<nat>)
    requires |strides| == |shape| && InBounds(shape, idx)
    requires FortranContiguous(shape, strides, expected)
    ensures StrideOffset(strides, idx) == expected * ColumnIndex(shape, idx)
  {
    if shape != [] {
      FortranStrides(shape[1..], strides[1..], expected * shape[0], idx[1..]);
      var c, i, n := ColumnIndex(shape[1..], idx[1..]), idx[0], shape[0];
      assert StrideOffset(strides, idx) == strides[0] * i + (expected * n) * c;
      assert strides[0] * i == expected * i by { if n == 1 { assert i == 0; } }
      Regroup(expected, i, n, c);
    }
  }

  lemma Regroup(e: nat, i: nat, n: nat, c: nat)
    ensures e * i + (e * n) * c == e * (i + n * c)
  {
  }

  /** The wire listing of a numpy array: its elements in column-major order. */
  ghost function WireOrder<T>(v: View<T>): (r: seq<T>)
    requires ValidView(v)
    ensures |r| == Product(v.shape)
  {
    seq(Product(v.shape), k requires 0 <= k < Product(v.shape) =>
      ColumnMultiInverse(v.shape, k);
      Element(v, ColumnMulti(v.shape, k)))
  }

  /** A Fortran-contiguous buffer already is its own wire listing, so copying the block of memory
      and copying element by element agree. */
  lemma ContiguousBlockIsWireOrder<T>(v: View<T>)
    requires ValidView(v) && FortranContiguous(v.shape, v.strides, 1) && Product(v.shape) > 0
    ensures 0 <= v.offset && v.offset + Product(v.shape) <= |v.memory|
    ensures v.memory[v.offset..v.offset + Product(v.shape)] == WireOrder(v)
  {
    forall k | 0 <= k < Product(v.shape)
      ensures InBounds(v.shape, ColumnMulti(v.shape, k))
      ensures StrideOffset(v.strides, ColumnMulti(v.shape, k)) == k
    {
      ColumnMultiInverse(v.shape, k);
      FortranStrides(v.shape, v.strides, 1, ColumnMulti(v.shape, k));
    }
    var first, last := ColumnMulti(v.shape, 0), ColumnMulti(v.shape, Product(v.shape) - 1);
    assert InBounds(v.shape, first) && InBounds(v.shape, last);
  }

  /** `PackToMultiDimArray_numpy1`: fill the wire array from a numpy array, by one block copy when
      the array is Fortran-contiguous and element by element otherwise. */
  method PackMultiDim<T(0)>(v: View<T>) returns (ret: array<T>)
    requires ValidView(v)
    ensures fresh(ret) && ret[..] == WireOrder(v)
  {
    var count := Product(v.shape);
    ret := new T[count];
    if count == 0 {
      return;
    }
    if FortranContiguous(v.shape, v.strides, 1) {
      ContiguousBlockIsWireOrder(v);
      forall k | 0 <= k < count {
        ret[k] := v.memory[v.offset + k];
      }
      assert forall k :: 0 <= k < count ==> ret[k] == v.memory[v.offset..v.offset + count][k];
      assert ret[..] == v.memory[v.offset..v.offset + count];
    } else {
      CopyIntoFortran(v, ret);
    }
  }

  /** numpy's element-wise copy of `v` into a Fortran-contiguous buffer of the same shape. */
  method CopyIntoFortran<T>(v: View<T>, ret: array<T>)
    requires ValidView(v) && ret.Length == Product(v.shape)
    modifies ret
    ensures ret[..] == WireOrder(v)
  {
    for k := 0 to ret.Length
      invariant forall j :: 0 <= j < k ==> ret[j] == WireOrder(v)[j]
    {
      ColumnMultiInverse(v.shape, k);
      var idx := ColumnMulti(v.shape, k);
      assert WireOrder(v)[k] == Element(v, idx);
      ret[k] := v.memory[v.offset + StrideOffset(v.strides, idx)];
    }
  }

  /** The strides of a fresh row-major array. */
  function RowStrides(shape: seq<nat>): (r: seq<int>)
    ensures |r| == |shape|
  {
    if shape == [] then [] else [Product(shape[1..])] + RowStrides(shape[1..])
  }

  lemma {:induction false} RowStrideOffset(shape: seq<nat>, idx: seq<nat>)
    requires |idx| == |shape|
    ensures StrideOffset(RowStrides(shape), idx) == RowIndex(shape, idx)
  {
    if shape != [] {
      RowStrideOffset(shape[1..], idx[1..]);
      assert RowStrides(shape)[1..] == RowStrides(shape[1..]);
      assert Product(shape[1..]) * idx[0] == idx[0] * Product(shape[1..]);
    }
  }

  /** `UnpackFromRRMultiDimArray_numpy1`: a new row-major numpy array holding, at every
      multi-index, the element the wire array has at its column-major position. */
  method UnpackMultiDim<T(0)>(wire: array<T>, shape: seq<nat>) returns (v: View<T>)
    requires wire.Length == Product(shape)
    ensures v.shape == shape && ValidView(v) && WireOrder(v) == wire[..]
    ensures v.memory == FromColumnMajor(shape, wire[..])
  {
    var b := new T[wire.Length];
    for k := 0 to wire.Length
      invariant wire[..] == old(wire[..])
      invariant forall j :: 0 <= j < k ==> b[j] == FromColumnMajor(shape, wire[..])[j]
    {
      b[k] := wire[ColumnPosition(shape, k)];
    }
    v := View(b[..], 0, shape, RowStrides(shape));
    forall idx | InBounds(shape, idx)
      ensures 0 <= StrideOffset(v.strides, idx) < |v.memory|
    {
      RowStrideOffset(shape, idx);
      RowIndexInverse(shape, idx);
    }
    ReorderInverse(shape, wire[..]);
    RowMajorWireOrder(v.memory, shape);
    assert v.memory == FromColumnMajor(shape, wire[..]);
  }

  /** The wire order of a row-major array is its reordering to column-major. */
  lemma RowMajorWireOrder<T>(s: seq<T>, shape: seq<nat>)
    requires |s| == Product(shape)
    ensures var v := View(s, 0, shape, RowStrides(shape));
            ValidView(v) && WireOrder(v) == ToColumnMajor(shape, s)
  {
    var v := View(s, 0, shape, RowStrides(shape));
    forall idx | InBounds(shape, idx)
      ensures 0 <= StrideOffset(v.strides, idx) < |s| && StrideOffset(v.strides, idx) == RowIndex(shape, idx)
    {
      RowStrideOffset(shape, idx);
      RowIndexInverse(shape, idx);
    }
    forall k | 0 <= k < |s|
      ensures WireOrder(v)[k] == ToColumnMajor(shape, s)[k]
    {
      ColumnMultiInverse(shape, k);
    }
  }

  /** Packing an array and unpacking the result keeps the element at every index, whatever the
      strides of the array that was packed. */
  lemma WireOrderKeepsElements<T>(v: View<T>, idx: seq<nat>)
    requires ValidView(v) && InBounds(v.shape, idx)
    ensures var w := View(FromColumnMajor(v.shape, WireOrder(v)), 0, v.shape, RowStrides(v.shape));
            ValidView(w) && Element(w, idx) == Element(v, idx)
  {
    var s := FromColumnMajor(v.shape, WireOrder(v));
    RowMajorWireOrder(s, v.shape);
    RowStrideOffset(v.shape, idx);
    RowIndexInverse(v.shape, idx);
    ColumnIndexInverse(v.shape, idx);
    assert s[RowIndex(v.shape, idx)] == WireOrder(v)[ColumnIndex(v.shape, idx)];
  }
}
