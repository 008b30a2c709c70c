/** What the composite of `group` and the crop of `range` show: the value
    the field holds at the matching absolute coordinate, where the chunk
    coordinates reach `ndarray-group` in the box's axis-0-fastest order. */
module Assembly {
  import opened Keys
  import opened Strides
  import opened NdArray
  import opened Ranges
  import opened Grouping
  import opened Cache
  import opened CacheLaws

  lemma DivUnique(x: int, s: int, q: int, m: int)
    requires s > 0 && 0 <= m < s && x == q * s + m
    ensures x / s == q && x % s == m
  {
    var q', m' := x / s, x % s;
    assert x == q' * s + m';
    assert (q - q') * s == m' - m;
    assert (q' - q) * s == m - m';
    if q > q' {
      MulAtLeast(q - q', s);
    } else if q < q' {
      MulAtLeast(q' - q, s);
    }
  }

  /** Absolute coordinate h * s + i lies in chunk h + i / s, at local index
      i mod s. */
  lemma AxesShift(h: seq<int>, s: seq<int>, i: seq<int>)
    requires |h| == |s| == |i| && Positive(s)
    ensures DivAxes(Add(Scale(h, s), i), s) == Add(h, DivAxes(i, s))
    ensures ModAxes(Add(Scale(h, s), i), s) == ModAxes(i, s)
  {
    var a := Add(Scale(h, s), i);
    forall d | 0 <= d < |s|
      ensures a[d] / s[d] == h[d] + i[d] / s[d] && a[d] % s[d] == i[d] % s[d]
    {
      var q, m := i[d] / s[d], i[d] % s[d];
      assert (h[d] + q) * s[d] + m == h[d] * s[d] + i[d];
      DivUnique(a[d], s[d], h[d] + q, m);
    }
  }

  /** The chunk offset i / shape of a composite index lies in the box. */
  lemma QuotientInBox(i: seq<int>, shape: seq<int>, ext: seq<int>)
    requires |shape| == |ext| && Positive(shape) && Inside(i, Scale(ext, shape))
    ensures forall d :: 0 <= d < |i| ==> 0 <= DivAxes(i, shape)[d] < ext[d]
  {
    forall d | 0 <= d < |i|
      ensures 0 <= i[d] / shape[d] < ext[d]
    {
      assert i[d] < shape[d] * ext[d];
      DivBelow(i[d], shape[d], ext[d]);
    }
  }

  /** The cell at box index RectIndex(q) is hi + q. */
  lemma CellOfOffset(hi: seq<int>, lo: seq<int>, q: seq<int>)
    requires |hi| == |lo| == |q| && Ordered(hi, lo)
    requires forall d :: 0 <= d < |q| ==> 0 <= q[d] < Extents(hi, lo)[d]
    ensures 0 <= RectIndex(q, Extents(hi, lo)) < |Cells(hi, lo)|
    ensures Cells(hi, lo)[RectIndex(q, Extents(hi, lo))] == Add(hi, q)
  {
    var ext := Extents(hi, lo);
    var cs := Cells(hi, lo);
    RectIndexRange(q, ext);
    CellsSpec(hi, lo);
    var k := RectIndex(q, ext);
    var c := Add(hi, q);
    assert Sub(c, hi) == q;
    SameIndexSameCell(cs[k], c, hi, lo);
  }

  /** The composite index i of a box of chunks lists the chunk cell that
      holds absolute coordinate hi * shape + i. */
  lemma CompositeAt(index: map<string, ChunkArray>, shape: seq<int>, hi: seq<int>, lo: seq<int>,
                    arrays: seq<View>, i: seq<int>)
    requires |hi| == |lo| == |shape| && Positive(shape) && Ordered(hi, lo)
    requires |arrays| == |Cells(hi, lo)| && arrays[0].shape == shape
    requires forall k :: 0 <= k < |arrays| ==>
               Key(Cells(hi, lo)[k]) in index && arrays[k] == index[Key(Cells(hi, lo)[k])].data
    requires Inside(i, Scale(Extents(hi, lo), shape))
    ensures Value(index, shape, Add(Scale(hi, shape), i)) == Some(Compose(Extents(hi, lo), arrays).at(i))
  {
    var ext := Extents(hi, lo);
    var q := DivAxes(i, shape);
    QuotientInBox(i, shape, ext);
    CellOfOffset(hi, lo, q);
    ComposeAt(ext, arrays, i);
    AxesShift(hi, shape, i);
  }

  /** Every index of v shows the cached value at origin + index. */
  ghost predicate Shows(index: map<string, ChunkArray>, shape: seq<int>, origin: seq<int>, v: View)
    requires |origin| == |shape| && Positive(shape)
  {
    forall i :: Inside(i, v.shape) && |i| == |shape| ==> Value(index, shape, Add(origin, i)) == Some(v.at(i))
  }

  /** Entry k of arrays is the ndarray cached for coordinate ps[k]. */
  ghost predicate Fills(index: map<string, ChunkArray>, ps: seq<seq<int>>, arrays: seq<View>)
  {
    && |arrays| == |ps|
    && forall k :: 0 <= k < |ps| ==> Key(ps[k]) in index && arrays[k] == index[Key(ps[k])].data
  }

  /** A complete gather of replies that agree with the index lists the
      cached ndarrays in dispatch order. */
  lemma GatheredFills(ps: seq<seq<int>>, rs: seq<Option<Reply>>, index: map<string, ChunkArray>)
    requires Agrees(ps, rs, index) && Gather(rs).Gathered?
    ensures Fills(index, ps, Gather(rs).arrays)
  {
    GatherAll(rs);
  }

  /** Composing the cached ndarrays of a box's cells, in the box's own
      order, shows the field from the box's first cell. */
  lemma ComposeShows(index: map<string, ChunkArray>, shape: seq<int>, hi: seq<int>, lo: seq<int>, arrays: seq<View>)
    requires |hi| == |lo| == |shape| && Positive(shape) && Ordered(hi, lo)
    requires Fills(index, Cells(hi, lo), arrays) && |arrays| >= 1 && arrays[0].shape == shape
    ensures Compose(Extents(hi, lo), arrays).shape == Scale(Extents(hi, lo), shape)
    ensures Shows(index, shape, Scale(hi, shape), Compose(Extents(hi, lo), arrays))
  {
    var v := Compose(Extents(hi, lo), arrays);
    forall i | Inside(i, v.shape) && |i| == |shape|
      ensures Value(index, shape, Add(Scale(hi, shape), i)) == Some(v.at(i))
    {
      CompositeAt(index, shape, hi, lo, arrays, i);
    }
  }

  /** `group` over the box from hi to lo, with the coordinates in the box's
      own order: the composite has the box's extents times the chunk shape,
      and every composite index i shows the field's value at absolute
      coordinate hi * shape + i. */
  lemma GroupValues(getter: Getter, shape: seq<int>, st: State, hi: seq<int>, lo: seq<int>)
    requires Wellformed(st, shape) && Honest(getter, shape)
    requires |hi| == |lo| == |shape| && Positive(shape) && Ordered(hi, lo)
    requires Gather(FetchAll(getter, shape, st, Cells(hi, lo)).1).Gathered?
    ensures var arrays := Gather(FetchAll(getter, shape, st, Cells(hi, lo)).1).arrays;
            |arrays| == Product(Extents(hi, lo)) >= 1 && arrays[0].shape == shape
    ensures var r := FetchAll(getter, shape, st, Cells(hi, lo));
            var v := Compose(Extents(hi, lo), Gather(r.1).arrays);
            v.shape == Scale(Extents(hi, lo), shape) && Shows(r.0.index, shape, Scale(hi, shape), v)
  {
    var r := FetchAll(getter, shape, st, Cells(hi, lo));
    GroupArrays(getter, shape, st, hi, lo);
    ComposeShows(r.0.index, shape, hi, lo, Gather(r.1).arrays);
  }

  /** The gathered ndarrays of the box's cells are the cached ones, one per
      cell, the first of the chunk shape. */
  lemma GroupArrays(getter: Getter, shape: seq<int>, st: State, hi: seq<int>, lo: seq<int>)
    requires Wellformed(st, shape) && Honest(getter, shape)
    requires |hi| == |lo| == |shape| && Positive(shape) && Ordered(hi, lo)
    requires Gather(FetchAll(getter, shape, st, Cells(hi, lo)).1).Gathered?
    ensures var r := FetchAll(getter, shape, st, Cells(hi, lo));
            var arrays := Gather(r.1).arrays;
            && Fills(r.0.index, Cells(hi, lo), arrays)
            && |arrays| == Product(Extents(hi, lo)) >= 1 && arrays[0].shape == shape
  {
    var cs := Cells(hi, lo);
    var r := FetchAll(getter, shape, st, cs);
    FetchAllChunks(getter, shape, st, cs);
    FetchAllWellformed(getter, shape, st, cs);
    GatheredFills(cs, r.1, r.0.index);
    var arrays := Gather(r.1).arrays;
    CellsSpec(hi, lo);
    ProductPositive(Extents(hi, lo));
    assert Key(cs[0]) in r.0.index && arrays[0] == r.0.index[Key(cs[0])].data;
  }

  /** Per axis: the crop offsets lie inside the chunk box's extent and
      shift back to the requested coordinates. */
  lemma CropBounds(hi: seq<int>, lo: seq<int>, shape: seq<int>)
    requires |hi| == |lo| == |shape| && Positive(shape) && Ordered(hi, lo)
    ensures var tl, br, cb := TopLeft(hi, lo, shape), BottomRight(hi, lo, shape), ChunkBox(hi, lo, shape);
            forall d :: 0 <= d < |shape| ==>
              && 0 <= tl[d] && br[d] - tl[d] == lo[d] - hi[d] + 1
              && br[d] <= (cb.lo[d] - cb.hi[d] + 1) * shape[d]
              && cb.hi[d] * shape[d] + tl[d] == hi[d]
  {
    forall d | 0 <= d < |shape|
    {
      PlanAxisCovers(hi[d], lo[d], shape[d]);
    }
  }

  /** `range`'s crop of the chunk-box composite: cutting at br and then at
      tl leaves exactly the requested box, and index j shows the composite
      at tl + j, which is absolute coordinate hi + j. */
  lemma CropAt(comp: View, hi: seq<int>, lo: seq<int>, shape: seq<int>)
    requires |hi| == |lo| == |shape| && Positive(shape) && Ordered(hi, lo)
    requires comp.shape == Scale(Extents(ChunkBox(hi, lo, shape).hi, ChunkBox(hi, lo, shape).lo), shape)
    ensures var v := Lo(Hi(comp, BottomRight(hi, lo, shape)), TopLeft(hi, lo, shape));
            && v.shape == Extents(hi, lo)
            && forall j :: Inside(j, v.shape) ==>
                 var t := Add(TopLeft(hi, lo, shape), j);
                 && Inside(t, comp.shape)
                 && v.at(j) == comp.at(t)
                 && Add(Scale(ChunkBox(hi, lo, shape).hi, shape), t) == Add(hi, j)
  {
    CropBounds(hi, lo, shape);
    var cb := ChunkBox(hi, lo, shape);
    Crop(comp, hi, lo, TopLeft(hi, lo, shape), BottomRight(hi, lo, shape), cb.hi, cb.lo, shape);
  }

  predicate CropFits(hi: seq<int>, lo: seq<int>, tl: seq<int>, br: seq<int>, chi: seq<int>, clo: seq<int>, shape: seq<int>)
  {
    && |hi| == |lo| == |tl| == |br| == |chi| == |clo| == |shape| && Ordered(hi, lo)
    && forall d :: 0 <= d < |shape| ==>
         && 0 <= tl[d] && br[d] - tl[d] == lo[d] - hi[d] + 1
         && br[d] <= (clo[d] - chi[d] + 1) * shape[d]
         && chi[d] * shape[d] + tl[d] == hi[d]
  }

  lemma Crop(comp: View, hi: seq<int>, lo: seq<int>, tl: seq<int>, br: seq<int>, chi: seq<int>, clo: seq<int>, shape: seq<int>)
    requires CropFits(hi, lo, tl, br, chi, clo, shape)
    requires comp.shape == Scale(Extents(chi, clo), shape)
    ensures var v := Lo(Hi(comp, br), tl);
            && v.shape == Extents(hi, lo)
            && forall j :: Inside(j, v.shape) ==>
                 && Inside(Add(tl, j), comp.shape)
                 && v.at(j) == comp.at(Add(tl, j))
                 && Add(Scale(chi, shape), Add(tl, j)) == Add(hi, j)
  {
    CropShape(comp, hi, lo, tl, br, chi, clo, shape);
    forall j | Inside(j, Extents(hi, lo))
      ensures Inside(Add(tl, j), comp.shape)
      ensures Lo(Hi(comp, br), tl).at(j) == comp.at(Add(tl, j))
      ensures Add(Scale(chi, shape), Add(tl, j)) == Add(hi, j)
    {
      CropIndex(comp, hi, lo, tl, br, chi, clo, shape, j);
      CropValue(comp, br, tl, j);
    }
  }

  lemma CropShape(comp: View, hi: seq<int>, lo: seq<int>, tl: seq<int>, br: seq<int>, chi: seq<int>, clo: seq<int>, shape: seq<int>)
    requires CropFits(hi, lo, tl, br, chi, clo, shape)
    requires |comp.shape| == |shape|
    ensures Lo(Hi(comp, br), tl).shape == Extents(hi, lo)
  {
    assert LoShift(tl) == tl;
    var h := Hi(comp, br);
    assert h.shape == br;
  }

  lemma CropIndex(comp: View, hi: seq<int>, lo: seq<int>, tl: seq<int>, br: seq<int>, chi: seq<int>, clo: seq<int>, shape: seq<int>, j: seq<int>)
    requires CropFits(hi, lo, tl, br, chi, clo, shape)
    requires comp.shape == Scale(Extents(chi, clo), shape)
    requires Inside(j, Extents(hi, lo))
    ensures Inside(Add(tl, j), comp.shape)
    ensures Add(Scale(chi, shape), Add(tl, j)) == Add(hi, j)
  {
    var t := Add(tl, j);
    forall d | 0 <= d < |t|
      ensures 0 <= t[d] < comp.shape[d]
    {
      assert comp.shape[d] == (clo[d] - chi[d] + 1) * shape[d];
    }
  }

  /** `range` over the box from hi to lo: the result has the box's extents
      and index j shows the field's value at absolute coordinate hi + j,
      provided the chunk box's coordinates reach `ndarray-group` in the
      box's own order. */
  lemma RangeValues(getter: Getter, shape: seq<int>, st: State, hi: seq<int>, lo: seq<int>)
    requires Wellformed(st, shape) && Honest(getter, shape)
    requires |hi| == |lo| == |shape| && Positive(shape) && Ordered(hi, lo)
    requires var cb := ChunkBox(hi, lo, shape);
             Gather(FetchAll(getter, shape, st, Cells(cb.hi, cb.lo)).1).Gathered?
    ensures var cb := ChunkBox(hi, lo, shape);
            var arrays := Gather(FetchAll(getter, shape, st, Cells(cb.hi, cb.lo)).1).arrays;
            |arrays| >= 1 && arrays[0].shape == shape
    ensures var cb := ChunkBox(hi, lo, shape);
            var r := FetchAll(getter, shape, st, Cells(cb.hi, cb.lo));
            var v := Lo(Hi(Compose(Extents(cb.hi, cb.lo), Gather(r.1).arrays), BottomRight(hi, lo, shape)), TopLeft(hi, lo, shape));
            v.shape == Extents(hi, lo) && Shows(r.0.index, shape, hi, v)
  {
    var cb := ChunkBox(hi, lo, shape);
    var r := FetchAll(getter, shape, st, Cells(cb.hi, cb.lo));
    GroupValues(getter, shape, st, cb.hi, cb.lo);
    var comp := Compose(Extents(cb.hi, cb.lo), Gather(r.1).arrays);
    CropAt(comp, hi, lo, shape);
  }

  /** `range`'s crop has the extents of the requested box. */
  lemma CroppedShape(comp: View, hi: seq<int>, lo: seq<int>, shape: seq<int>)
    requires |hi| == |lo| == |shape| && Positive(shape) && Ordered(hi, lo)
    requires |comp.shape| == |shape|
    ensures Lo(Hi(comp, BottomRight(hi, lo, shape)), TopLeft(hi, lo, shape)).shape == Extents(hi, lo)
  {
    CropBounds(hi, lo, shape);
    var cb := ChunkBox(hi, lo, shape);
    CropShape(comp, hi, lo, TopLeft(hi, lo, shape), BottomRight(hi, lo, shape), cb.hi, cb.lo, shape);
  }

  /** comp is the composite of the chunk box covering hi to lo and shows
      the field from the box's first cell. */
  ghost predicate CoversBox(index: map<string, ChunkArray>, shape: seq<int>, hi: seq<int>, lo: seq<int>, comp: View)
    requires |hi| == |lo| == |shape| && Positive(shape) && Ordered(hi, lo)
  {
    var cb := ChunkBox(hi, lo, shape);
    && comp.shape == Scale(Extents(cb.hi, cb.lo), shape)
    && Shows(index, shape, Scale(cb.hi, shape), comp)
  }

  /** Cropping a composite that shows the field from its chunk box's first
      cell yields a view that shows the field from hi. */
  lemma CropShows(index: map<string, ChunkArray>, shape: seq<int>, comp: View, hi: seq<int>, lo: seq<int>)
    requires |hi| == |lo| == |shape| && Positive(shape) && Ordered(hi, lo)
    requires CoversBox(index, shape, hi, lo, comp)
    ensures var v := Lo(Hi(comp, BottomRight(hi, lo, shape)), TopLeft(hi, lo, shape));
            v.shape == Extents(hi, lo) && Shows(index, shape, hi, v)
  {
    CroppedShape(comp, hi, lo, shape);
    CropAt(comp, hi, lo, shape);
  }

  /** Index j of the crop is index tl + j of the composite. */
  lemma CropValue(comp: View, br: seq<int>, tl: seq<int>, j: seq<int>)
    requires |br| == |tl| == |comp.shape| == |j|
    requires forall d :: 0 <= d < |tl| ==> tl[d] >= 0
    ensures Lo(Hi(comp, br), tl).at(j) == comp.at(Add(tl, j))
  {
    assert LoShift(tl) == tl;
  }

  /** Whatever order the coordinates are dispatched in, a complete gather
      holds one ndarray of the chunk shape per coordinate. */
  lemma GatheredShapes(getter: Getter, shape: seq<int>, st: State, ps: seq<seq<int>>)
    requires Wellformed(st, shape) && Honest(getter, shape)
    requires Gather(FetchAll(getter, shape, st, ps).1).Gathered?
    ensures var arrays := Gather(FetchAll(getter, shape, st, ps).1).arrays;
            |arrays| == |ps| && forall k :: 0 <= k < |arrays| ==> arrays[k].shape == shape
  {
    var r := FetchAll(getter, shape, st, ps);
    FetchAllChunks(getter, shape, st, ps);
    FetchAllWellformed(getter, shape, st, ps);
    GatherAll(r.1);
  }

  /** `group` in whatever order the sort left the coordinates: the
      composite is well formed with the box's extents times the chunk shape,
      and when the order is the box's own it shows the field's values. */
  lemma GroupComposite(getter: Getter, shape: seq<int>, st: State, hi: seq<int>, lo: seq<int>, order: seq<seq<int>>)
    requires Wellformed(st, shape) && Honest(getter, shape)
    requires |hi| == |lo| == |shape| && Positive(shape) && Ordered(hi, lo)
    requires |order| == |Cells(hi, lo)|
    requires Gather(FetchAll(getter, shape, st, order).1).Gathered?
    ensures var arrays := Gather(FetchAll(getter, shape, st, order).1).arrays;
            |arrays| >= 1 && arrays[0].shape == shape
    ensures var r := FetchAll(getter, shape, st, order);
            var v := Compose(Extents(hi, lo), Gather(r.1).arrays);
            && v.shape == Scale(Extents(hi, lo), shape)
            && (order == Cells(hi, lo) ==> Shows(r.0.index, shape, Scale(hi, shape), v))
  {
    GatheredShapes(getter, shape, st, order);
    if order == Cells(hi, lo) {
      GroupValues(getter, shape, st, hi, lo);
    }
  }
}
