/** The collaborators the field is built on, specified at their interface only:
    an ndarray is a shape and a read function over local indices; `zeros`,
    the `hi`/`lo` crops, `cell-range` and `ndarray-group` are functions on
    such values. Storage, strides and zero-copy sharing are not modelled. */
module NdArray {
  import opened Strides

  /** An ndarray as seen through `get`: its shape and the value at each index. */
  datatype View = View(shape: seq<int>, at: seq<int> -> int)

  /** `zeros(shape)`: every cell holds 0. */
  function Zeros(shape: seq<int>): (v: View)
    ensures v.shape == shape && forall i :: v.at(i) == 0
  {
    View(shape, (i: seq<int>) => 0)
  }

  /** i lies inside a box of extents `shape`, counted from 0. */
  predicate Inside(i: seq<int>, shape: seq<int>)
  {
    |i| == |shape| && forall d :: 0 <= d < |i| ==> 0 <= i[d] < shape[d]
  }

  /** ndarray's `.hi(b...)`: on every axis whose argument is not negative the
      shape becomes that argument; cells keep their indices. */
  function Hi(v: View, b: seq<int>): (r: View)
    requires |b| == |v.shape|
    ensures |r.shape| == |v.shape|
    ensures forall d :: 0 <= d < |b| && b[d] >= 0 ==> r.shape[d] == b[d]
    ensures forall i :: r.at(i) == v.at(i)
  {
    View(seq(|b|, d requires 0 <= d < |b| => if b[d] >= 0 then b[d] else v.shape[d]), v.at)
  }

  /** The part of a lower bound that `.lo` applies: negative arguments are
      ignored. */
  function LoShift(t: seq<int>): (u: seq<int>)
    ensures |u| == |t|
    ensures forall d :: 0 <= d < |t| ==> u[d] == if t[d] >= 0 then t[d] else 0
  {
    seq(|t|, d requires 0 <= d < |t| => if t[d] >= 0 then t[d] else 0)
  }

  /** ndarray's `.lo(t...)`: index j of the result is index t + j of v, and
      the shape shrinks by t on every axis with a non-negative argument. */
  function Lo(v: View, t: seq<int>): (r: View)
    requires |t| == |v.shape|
    ensures r.shape == Sub(v.shape, LoShift(t))
    ensures forall j :: |j| == |t| ==> r.at(j) == v.at(Add(LoShift(t), j))
  {
    var u := LoShift(t);
    View(Sub(v.shape, u), (j: seq<int>) => if |j| == |u| then v.at(Add(u, j)) else v.at(j))
  }

  /** Per-axis floor division and remainder by the chunk shape. */
  function DivAxes(i: seq<int>, s: seq<int>): (q: seq<int>)
    requires |i| == |s| && Positive(s)
    ensures |q| == |i| && forall d :: 0 <= d < |q| ==> q[d] == i[d] / s[d]
  {
    seq(|i|, d requires 0 <= d < |i| => i[d] / s[d])
  }

  function ModAxes(i: seq<int>, s: seq<int>): (m: seq<int>)
    requires |i| == |s| && Positive(s)
    ensures |m| == |i| && forall d :: 0 <= d < |m| ==> m[d] == i[d] % s[d]
  {
    seq(|i|, d requires 0 <= d < |i| => i[d] % s[d])
  }

  /** Per-axis product: the scalar shape of a box of chunks. */
  function Scale(rect: seq<int>, s: seq<int>): (r: seq<int>)
    requires |rect| == |s|
    ensures |r| == |s| && forall d :: 0 <= d < |r| ==> r[d] == rect[d] * s[d]
  {
    seq(|s|, d requires 0 <= d < |s| => rect[d] * s[d])
  }

  /** The value `ndarray-group` shows at composite index i. */
  function Pick(rect: seq<int>, s: seq<int>, arrays: seq<View>, i: seq<int>): int
  {
    if |i| == |s| && |rect| == |s| && Positive(s) then
      var k := RectIndex(DivAxes(i, s), rect);
      if 0 <= k < |arrays| then arrays[k].at(ModAxes(i, s)) else 0
    else 0
  }

  /** `ndarray-group(rect, arrays)`: one view over a box of equally shaped
      arrays, listed axis 0 fastest; composite index i lies in the array at
      box offset i / s, at local index i % s. */
  function Compose(rect: seq<int>, arrays: seq<View>): (r: View)
    requires |arrays| >= 1 && |rect| == |arrays[0].shape|
    ensures r.shape == Scale(rect, arrays[0].shape)
  {
    var s := arrays[0].shape;
    View(Scale(rect, s), (i: seq<int>) => Pick(rect, s, arrays, i))
  }

  lemma ComposeAt(rect: seq<int>, arrays: seq<View>, i: seq<int>)
    requires |arrays| >= 1 && |rect| == |arrays[0].shape|
    requires Positive(rect) && Positive(arrays[0].shape) && |arrays| == Product(rect)
    requires Inside(i, Compose(rect, arrays).shape)
    ensures var s := arrays[0].shape;
            var k := RectIndex(DivAxes(i, s), rect);
            0 <= k < |arrays| && Compose(rect, arrays).at(i) == arrays[k].at(ModAxes(i, s))
  {
    var s := arrays[0].shape;
    var q := DivAxes(i, s);
    forall d | 0 <= d < |q|
      ensures 0 <= q[d] < rect[d]
    {
      DivBelow(i[d], s[d], rect[d]);
      assert i[d] < s[d] * rect[d];
    }
    RectIndexRange(q, rect);
  }

  /** `cell-range(hi, lo)`: every integer point of the box, once each. */
  function Cells(hi: seq<int>, lo: seq<int>): (cs: seq<seq<int>>)
    requires |hi| == |lo| && Ordered(hi, lo)
    ensures Product(Extents(hi, lo)) >= 1 && |cs| == Product(Extents(hi, lo))
    ensures forall k :: 0 <= k < |cs| ==> cs[k] == Add(hi, RectCoord(k, Extents(hi, lo)))
  {
    var ext := Extents(hi, lo);
    ProductPositive(ext);
    seq(Product(ext), k requires 0 <= k < Product(ext) => Add(hi, RectCoord(k, ext)))
  }

  predicate Distinct<T(==)>(s: seq<T>)
  {
    forall i, j :: 0 <= i < j < |s| ==> s[i] != s[j]
  }

  /** The enumeration has one entry per cell of the box, every entry lies in
      the box and no cell is listed twice. */
  lemma CellsSpec(hi: seq<int>, lo: seq<int>)
    requires |hi| == |lo| && Ordered(hi, lo)
    ensures |Cells(hi, lo)| == Product(Extents(hi, lo))
    ensures forall k :: 0 <= k < |Cells(hi, lo)| ==> InBox(Cells(hi, lo)[k], hi, lo)
    ensures forall k :: 0 <= k < |Cells(hi, lo)| ==>
              RectIndex(Sub(Cells(hi, lo)[k], hi), Extents(hi, lo)) == k
    ensures Distinct(Cells(hi, lo))
  {
    var ext := Extents(hi, lo);
    var cs := Cells(hi, lo);
    forall k | 0 <= k < |cs|
      ensures InBox(cs[k], hi, lo) && RectIndex(Sub(cs[k], hi), ext) == k
    {
      RectCoordIndex(k, ext);
      assert Sub(cs[k], hi) == RectCoord(k, ext);
    }
  }
}
