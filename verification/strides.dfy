/** The strides (`offsets`) the constructor derives from the chunk shape
    (index.js:30-36), the linear sort key `group` orders chunk coordinates by
    (index.js:75-85), and the index of a cell inside a rectangle with axis 0
    varying fastest, which is the order those offsets describe. */
module Strides {

  predicate Positive(w: seq<int>)
  {
    forall i :: 0 <= i < |w| ==> w[i] > 0
  }

  /** The number of cells of a box with extents w. */
  function Product(w: seq<int>): int
    decreases |w|
  {
    if |w| == 0 then 1 else Product(w[..|w| - 1]) * w[|w| - 1]
  }

  /** offsets[i] = shape[0] * ... * shape[i-1]: the value of the running
      `size` when the constructor's loop writes offsets[i]. */
  function Offsets(w: seq<int>): (st: seq<int>)
    ensures |st| == |w|
    decreases |w|
  {
    if |w| == 0 then [] else Offsets(w[..|w| - 1]) + [Product(w[..|w| - 1])]
  }

  /** Σ a[i] * st[i]: the accumulation of `aidx` in the sort comparator. */
  function Dot(a: seq<int>, st: seq<int>): int
    requires |a| == |st|
    decreases |st|
  {
    if |st| == 0 then 0 else Dot(a[..|a| - 1], st[..|st| - 1]) + a[|a| - 1] * st[|st| - 1]
  }

  /** The per-axis difference a - b. */
  function Sub(a: seq<int>, b: seq<int>): (r: seq<int>)
    requires |a| == |b|
    ensures |r| == |a| && forall i :: 0 <= i < |r| ==> r[i] == a[i] - b[i]
  {
    seq(|a|, i requires 0 <= i < |a| => a[i] - b[i])
  }

  /** The per-axis sum a + b. */
  function Add(a: seq<int>, b: seq<int>): (r: seq<int>)
    requires |a| == |b|
    ensures |r| == |a| && forall i :: 0 <= i < |r| ==> r[i] == a[i] + b[i]
  {
    seq(|a|, i requires 0 <= i < |a| => a[i] + b[i])
  }

  function Sign(x: int): int
  {
    if x > 0 then 1 else if x < 0 then -1 else 0
  }

  /** The sign of the highest-numbered non-zero entry: which of two
      coordinates comes first when the last axis is the most significant. */
  function ColexSign(d: seq<int>): int
    decreases |d|
  {
    if |d| == 0 then 0
    else if d[|d| - 1] != 0 then Sign(d[|d| - 1])
    else ColexSign(d[..|d| - 1])
  }

  lemma {:induction false} ColexSignZero(d: seq<int>)
    ensures ColexSign(d) == 0 <==> forall i :: 0 <= i < |d| ==> d[i] == 0
    decreases |d|
  {
    if |d| > 0 {
      ColexSignZero(d[..|d| - 1]);
      assert forall i :: 0 <= i < |d| - 1 ==> d[..|d| - 1][i] == d[i];
    }
  }

  lemma {:induction false} ProductPositive(w: seq<int>)
    requires Positive(w)
    ensures Product(w) >= 1
    decreases |w|
  {
    if |w| > 0 {
      ProductPositive(w[..|w| - 1]);
      MulAtLeast(Product(w[..|w| - 1]), w[|w| - 1]);
    }
  }

  lemma MulAtLeast(a: int, b: int)
    requires a >= 1 && b >= 1
    ensures a * b >= a && a * b >= b && a * b >= 1
  {
    assert a * b == a * (b - 1) + a;
    assert a * (b - 1) >= 0;
    assert a * b == (a - 1) * b + b;
    assert (a - 1) * b >= 0;
  }

  /** Every stride is the product of the extents before it, so the strides of
      a prefix of the shape are the prefix of its strides. */
  lemma {:induction false} OffsetsAt(w: seq<int>, i: int)
    requires 0 <= i < |w|
    ensures Offsets(w)[i] == Product(w[..i])
    decreases |w|
  {
    var n := |w|;
    assert w[..n - 1][..i] == w[..i];
    if i < n - 1 {
      OffsetsAt(w[..n - 1], i);
    }
  }

  lemma OffsetsPrefix(w: seq<int>)
    requires |w| > 0
    ensures Offsets(w)[..|w| - 1] == Offsets(w[..|w| - 1])
    ensures Offsets(w)[|w| - 1] == Product(w[..|w| - 1])
  {
  }

  /** The recurrence the constructor's loop implements: offsets[0] = 1 and
      offsets[i+1] = offsets[i] * shape[i]. */
  lemma OffsetsRecurrence(w: seq<int>)
    ensures |Offsets(w)| == |w|
    ensures |w| > 0 ==> Offsets(w)[0] == 1
    ensures forall i :: 0 <= i < |w| - 1 ==> Offsets(w)[i + 1] == Offsets(w)[i] * w[i]
  {
    if |w| > 0 {
      OffsetsAt(w, 0);
    }
    forall i | 0 <= i < |w| - 1
      ensures Offsets(w)[i + 1] == Offsets(w)[i] * w[i]
    {
      OffsetsAt(w, i);
      OffsetsAt(w, i + 1);
      assert w[..i + 1][..i] == w[..i];
    }
  }

  lemma {:induction false} DotSub(a: seq<int>, b: seq<int>, st: seq<int>)
    requires |a| == |b| == |st|
    ensures Dot(a, st) - Dot(b, st) == Dot(Sub(a, b), st)
    decreases |st|
  {
    var n := |st|;
    if n > 0 {
      DotSub(a[..n - 1], b[..n - 1], st[..n - 1]);
      assert Sub(a, b)[..n - 1] == Sub(a[..n - 1], b[..n - 1]);
      assert a[n - 1] * st[n - 1] - b[n - 1] * st[n - 1] == (a[n - 1] - b[n - 1]) * st[n - 1];
    }
  }

  /** Every entry strictly inside (-w[i], w[i]). */
  predicate Within(d: seq<int>, w: seq<int>)
    requires |d| == |w|
  {
    forall i :: 0 <= i < |d| ==> -w[i] < d[i] < w[i]
  }

  lemma MulBetween(d: int, w: int, p: int)
    requires -w < d < w && p >= 1
    ensures -(w * p) + p <= d * p <= w * p - p
  {
    MulNonNegative(w - 1 - d, p);
    MulNonNegative(d + w - 1, p);
    assert (w - 1 - d) * p == w * p - p - d * p;
    assert (d + w - 1) * p == d * p + w * p - p;
  }

  lemma MulNonNegative(a: int, b: int)
    requires a >= 0 && b >= 0
    ensures a * b >= 0
  {
  }

  /** Mixed radix: entries below their extents weigh less, in total, than the
      next stride. */
  lemma {:induction false} DotBound(d: seq<int>, w: seq<int>)
    requires |d| == |w| && Positive(w) && Within(d, w)
    ensures -Product(w) < Dot(d, Offsets(w)) < Product(w)
    decreases |w|
  {
    var n := |w|;
    if n > 0 {
      var w', d' := w[..n - 1], d[..n - 1];
      OffsetsPrefix(w);
      DotBound(d', w');
      ProductPositive(w');
      MulBetween(d[n - 1], w[n - 1], Product(w'));
    }
  }

  /** The order of two weighted sums is decided by the highest axis on which
      the coordinates differ, as long as every lower axis stays within its
      extent; the highest axis itself is unconstrained. */
  lemma {:induction false} DotSign(d: seq<int>, w: seq<int>)
    requires |d| == |w| && Positive(w)
    requires forall i :: 0 <= i < |d| - 1 ==> -w[i] < d[i] < w[i]
    ensures Sign(Dot(d, Offsets(w))) == ColexSign(d)
    decreases |w|
  {
    var n := |w|;
    if n > 0 {
      var w', d' := w[..n - 1], d[..n - 1];
      OffsetsPrefix(w);
      DotBound(d', w');
      ProductPositive(w');
      var p := Product(w');
      if d[n - 1] > 0 {
        MulAtLeast(p, d[n - 1]);
      } else if d[n - 1] < 0 {
        MulAtLeast(p, -d[n - 1]);
        assert d[n - 1] * p == -(p * -d[n - 1]);
      } else {
        DotSign(d', w');
      }
    }
  }

  /** The extents of the box from corner hi to corner lo, inclusive:
      lo[i] - hi[i] + 1 (index.js:95-97). */
  function Extents(hi: seq<int>, lo: seq<int>): (ext: seq<int>)
    requires |hi| == |lo|
    ensures |ext| == |hi|
    ensures forall i :: 0 <= i < |ext| ==> ext[i] == lo[i] - hi[i] + 1
  {
    seq(|hi|, i requires 0 <= i < |hi| => lo[i] - hi[i] + 1)
  }

  predicate InBox(p: seq<int>, hi: seq<int>, lo: seq<int>)
    requires |hi| == |lo|
  {
    |p| == |hi| && forall i :: 0 <= i < |p| ==> hi[i] <= p[i] <= lo[i]
  }

  /** hi <= lo on every axis: the box holds at least one cell. */
  predicate Ordered(hi: seq<int>, lo: seq<int>)
    requires |hi| == |lo|
  {
    forall i :: 0 <= i < |hi| ==> hi[i] <= lo[i]
  }

  /** The index of the cell at offset r in a box with extents w, axis 0
      varying fastest. */
  function RectIndex(r: seq<int>, w: seq<int>): int
    requires |r| == |w|
  {
    Dot(r, Offsets(w))
  }

  /** The cell at index k of a box with extents w (the inverse of RectIndex). */
  function RectCoord(k: nat, w: seq<int>): (r: seq<int>)
    requires Positive(w)
    ensures |r| == |w|
    decreases |w|
  {
    if |w| == 0 then []
    else
      ProductPositive(w[..|w| - 1]);
      var p := Product(w[..|w| - 1]);
      RectCoord(k % p, w[..|w| - 1]) + [k / p]
  }

  lemma DivBelow(k: int, p: int, m: int)
    requires 0 <= k < p * m && p >= 1
    ensures 0 <= k / p < m
  {
  }

  lemma {:induction false} RectCoordIndex(k: nat, w: seq<int>)
    requires Positive(w) && k < Product(w)
    ensures forall i :: 0 <= i < |w| ==> 0 <= RectCoord(k, w)[i] < w[i]
    ensures RectIndex(RectCoord(k, w), w) == k
    decreases |w|
  {
    var n := |w|;
    if n > 0 {
      var w' := w[..n - 1];
      ProductPositive(w');
      var p := Product(w');
      var r := RectCoord(k, w);
      OffsetsPrefix(w);
      RectCoordIndex(k % p, w');
      DivBelow(k, p, w[n - 1]);
      assert r[..n - 1] == RectCoord(k % p, w');
    }
  }

  /** Within a box, RectIndex is a bijection onto [0, Product(extents)) and
      it orders cells with the last axis most significant. */
  lemma RectIndexOrder(p: seq<int>, q: seq<int>, hi: seq<int>, lo: seq<int>)
    requires |hi| == |lo| && Ordered(hi, lo)
    requires InBox(p, hi, lo) && InBox(q, hi, lo)
    ensures Sign(RectIndex(Sub(p, hi), Extents(hi, lo)) - RectIndex(Sub(q, hi), Extents(hi, lo)))
         == ColexSign(Sub(p, q))
  {
    var ext := Extents(hi, lo);
    DotSub(Sub(p, hi), Sub(q, hi), Offsets(ext));
    assert Sub(Sub(p, hi), Sub(q, hi)) == Sub(p, q);
    DotSign(Sub(p, q), ext);
  }

  lemma {:induction false} RectIndexRange(r: seq<int>, w: seq<int>)
    requires |r| == |w| && Positive(w)
    requires forall i :: 0 <= i < |r| ==> 0 <= r[i] < w[i]
    ensures 0 <= RectIndex(r, w) < Product(w)
    decreases |w|
  {
    var n := |w|;
    if n > 0 {
      var w', r' := w[..n - 1], r[..n - 1];
      OffsetsPrefix(w);
      RectIndexRange(r', w');
      ProductPositive(w');
      var p := Product(w');
      assert RectIndex(r, w) == RectIndex(r', w') + r[n - 1] * p;
      MulBetween(r[n - 1], w[n - 1], p);
      MulNonNegative(r[n - 1], p);
      assert Product(w) == w[n - 1] * p;
    }
  }

  /** The sort key of a chunk coordinate: the `aidx` the comparator of
      index.js:76-82 accumulates. */
  function LinearKey(a: seq<int>, offsets: seq<int>): int
    requires |a| == |offsets|
  {
    Dot(a, offsets)
  }

  /** Every axis but the last spans at most one chunk extent. Only then do
      the offsets separate the chunk coordinates of the box. */
  predicate Narrow(hi: seq<int>, lo: seq<int>, shape: seq<int>)
    requires |hi| == |lo| == |shape|
  {
    forall i :: 0 <= i < |shape| - 1 ==> lo[i] - hi[i] + 1 <= shape[i]
  }

  /** On a narrow box the sort key orders chunk coordinates exactly as their
      index in the box does: the key is injective there and agrees with the
      axis-0-fastest layout of the box. */
  lemma NarrowKeyOrder(p: seq<int>, q: seq<int>, hi: seq<int>, lo: seq<int>, shape: seq<int>)
    requires |hi| == |lo| == |shape| && Positive(shape) && Ordered(hi, lo)
    requires Narrow(hi, lo, shape)
    requires InBox(p, hi, lo) && InBox(q, hi, lo)
    ensures Sign(LinearKey(p, Offsets(shape)) - LinearKey(q, Offsets(shape)))
         == Sign(RectIndex(Sub(p, hi), Extents(hi, lo)) - RectIndex(Sub(q, hi), Extents(hi, lo)))
    ensures LinearKey(p, Offsets(shape)) == LinearKey(q, Offsets(shape)) <==> p == q
  {
    var d := Sub(p, q);
    DotSub(p, q, Offsets(shape));
    assert LinearKey(p, Offsets(shape)) - LinearKey(q, Offsets(shape)) == Dot(d, Offsets(shape));
    forall i | 0 <= i < |d| - 1
      ensures -shape[i] < d[i] < shape[i]
    {
      assert lo[i] - hi[i] + 1 <= shape[i];
    }
    DotSign(d, shape);
    RectIndexOrder(p, q, hi, lo);
    assert Sign(Dot(d, Offsets(shape))) == ColexSign(d);
    ColexSignZero(d);
    if ColexSign(d) == 0 {
      assert forall i :: 0 <= i < |d| ==> d[i] == 0;
      assert forall i :: 0 <= i < |p| ==> p[i] == q[i];
    }
  }
}
