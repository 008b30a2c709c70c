/** The per-axis arithmetic of `range` (index.js:116-122): the chunk box that
    covers an absolute box, and the crop offsets that cut the composite of
    that chunk box back to the absolute box. Coordinates are integers and the
    chunk extent is positive, so `Math.floor(a / s)` is Dafny's `a / s` and
    `Math.ceil(a / s)` is `-((-a) / s)`. */
module Ranges {
  import opened Strides

  /** `Math.floor(a / s)` for an integer a and a positive integer s. */
  function FloorDiv(a: int, s: int): (q: int)
    requires s > 0
    ensures q * s <= a < (q + 1) * s
  {
    a / s
  }

  /** `Math.ceil(a / s)` for an integer a and a positive integer s. */
  function CeilDiv(a: int, s: int): (q: int)
    requires s > 0
    ensures (q - 1) * s < a <= q * s
  {
    -((-a) / s)
  }

  /** What one pass of the loop at index.js:116-122 computes for one axis. */
  datatype AxisPlan = AxisPlan(hiChunk: int, loChunk: int, tl: int, br: int)

  function PlanAxis(hi: int, lo: int, s: int): (r: AxisPlan)
    requires s > 0
    ensures r.hiChunk * s <= hi && lo < (r.loChunk + 1) * s
    ensures 0 <= r.tl < s && r.br - r.tl == lo - hi + 1
  {
    var hiChunk := FloorDiv(hi, s);
    var loChunk := CeilDiv(lo, s);
    AxisPlan(hiChunk, loChunk, -hiChunk * s + hi, -hiChunk * s + lo + 1)
  }

  /** The chunk span covers [hi, lo]; the crop keeps exactly lo - hi + 1
      cells, starts inside the first chunk and ends inside the chunk span, so
      composite index tl + j is absolute coordinate hi + j. */
  lemma PlanAxisCovers(hi: int, lo: int, s: int)
    requires s > 0 && hi <= lo
    ensures var p := PlanAxis(hi, lo, s);
      && p.hiChunk * s <= hi
      && lo < (p.loChunk + 1) * s
      && p.hiChunk <= p.loChunk
      && 0 <= p.tl < s
      && p.br - p.tl == lo - hi + 1
      && p.br <= (p.loChunk - p.hiChunk + 1) * s
      && p.hiChunk * s + p.tl == hi
  {
    var p := PlanAxis(hi, lo, s);
    var h, l := p.hiChunk, p.loChunk;
    assert h * s <= hi < (h + 1) * s;
    assert (l - 1) * s < lo <= l * s;
    assert (h + 1) * s == h * s + s;
    assert (l + 1) * s == l * s + s;
    assert -h * s == -(h * s);
    assert (l - h + 1) * s == l * s - h * s + s;
    MulLeft(h, l, s);
  }

  lemma MulLeft(a: int, b: int, s: int)
    requires s > 0
    ensures a <= b <==> a * s <= b * s
  {
    assert b * s - a * s == (b - a) * s;
    if a <= b {
      MulNonNegative(b - a, s);
    } else {
      MulAtLeast(a - b, s);
      assert (a - b) * s == a * s - b * s;
    }
  }

  /** The upper chunk bound is rounded up, so when lo is not a multiple of
      the extent the chunk box reaches one chunk beyond the one holding lo. */
  lemma CeilReachesPast(lo: int, s: int)
    requires s > 0
    ensures CeilDiv(lo, s) == if lo % s == 0 then lo / s else lo / s + 1
  {
    var q := CeilDiv(lo, s);
    var f := lo / s;
    var t := if lo % s == 0 then f else f + 1;
    assert lo == f * s + lo % s;
    assert (t - 1) * s < lo <= t * s by {
      assert (f + 1) * s == f * s + s;
    }
    MulLeft(q, t - 1, s);
    MulLeft(t, q - 1, s);
  }

  /** The loop of index.js:116-122 over every axis, as sequences. */
  function HiChunks(hi: seq<int>, lo: seq<int>, shape: seq<int>): (r: seq<int>)
    requires |hi| == |lo| == |shape| && Positive(shape)
    ensures |r| == |shape|
  {
    seq(|shape|, i requires 0 <= i < |shape| => PlanAxis(hi[i], lo[i], shape[i]).hiChunk)
  }

  function LoChunks(hi: seq<int>, lo: seq<int>, shape: seq<int>): (r: seq<int>)
    requires |hi| == |lo| == |shape| && Positive(shape)
    ensures |r| == |shape|
  {
    seq(|shape|, i requires 0 <= i < |shape| => PlanAxis(hi[i], lo[i], shape[i]).loChunk)
  }

  function TopLeft(hi: seq<int>, lo: seq<int>, shape: seq<int>): (r: seq<int>)
    requires |hi| == |lo| == |shape| && Positive(shape)
    ensures |r| == |shape|
  {
    seq(|shape|, i requires 0 <= i < |shape| => PlanAxis(hi[i], lo[i], shape[i]).tl)
  }

  function BottomRight(hi: seq<int>, lo: seq<int>, shape: seq<int>): (r: seq<int>)
    requires |hi| == |lo| == |shape| && Positive(shape)
    ensures |r| == |shape|
  {
    seq(|shape|, i requires 0 <= i < |shape| => PlanAxis(hi[i], lo[i], shape[i]).br)
  }

  /** The chunk box `range` hands to `group`: hiChunk to loChunk. */
  datatype Box = Box(hi: seq<int>, lo: seq<int>)

  function ChunkBox(hi: seq<int>, lo: seq<int>, shape: seq<int>): (b: Box)
    requires |hi| == |lo| == |shape| && Positive(shape) && Ordered(hi, lo)
    ensures b.hi == HiChunks(hi, lo, shape) && b.lo == LoChunks(hi, lo, shape)
    ensures |b.hi| == |b.lo| == |shape| && Ordered(b.hi, b.lo)
  {
    PlansOrdered(hi, lo, shape);
    Box(HiChunks(hi, lo, shape), LoChunks(hi, lo, shape))
  }

  lemma PlansOrdered(hi: seq<int>, lo: seq<int>, shape: seq<int>)
    requires |hi| == |lo| == |shape| && Positive(shape) && Ordered(hi, lo)
    ensures Ordered(HiChunks(hi, lo, shape), LoChunks(hi, lo, shape))
  {
    forall i | 0 <= i < |shape|
      ensures PlanAxis(hi[i], lo[i], shape[i]).hiChunk <= PlanAxis(hi[i], lo[i], shape[i]).loChunk
    {
      PlanAxisCovers(hi[i], lo[i], shape[i]);
    }
  }
}
