/** The `Continuous` object of index.js: an unbounded N-dimensional field
    stored as equally shaped chunks, fetched on demand through a getter and
    cached under their coordinate's key. */
module Continuous {
  import opened Keys
  import opened Strides
  import opened NdArray
  import opened Ranges
  import opened Grouping
  import opened Cache
  import opened CacheLaws
  import opened Assembly

  /** The argument of `Continuous(options)`: nothing (`undefined` or `null`),
      a bare shape array, or an options object whose `shape` and `getter` may
      be missing or falsy. An array, even an empty one, is truthy. */
  datatype Options =
    | Unset
    | ShapeArray(extents: seq<int>)
    | Settings(shape: Option<seq<int>>, getter: Option<Getter>)

  /** What construction keeps from the options. */
  datatype Config = Config(shape: seq<int>, getter: Getter)

  datatype Result<T> = Success(value: T) | Failure(error: Error)

  const MissingShape := Error("You need to provide a default shape for your ndarrays")

  /** The prototype getter (index.js:147-149): a zero-filled ndarray of the
      field's shape, handed over before it returns. */
  function ZerosGetter(): (g: Getter)
    ensures forall shape :: Honest(g, shape)
  {
    (shape: seq<int>, position: seq<int>) => Now(Ok(Zeros(shape)))
  }

  lemma ZerosGetterFills(shape: seq<int>, position: seq<int>)
    ensures Honest(ZerosGetter(), shape)
    ensures var d := ZerosGetter()(shape, position);
            d.Now? && d.result.Ok? && d.result.data.shape == shape && forall i :: d.result.data.at(i) == 0
  {
  }

  /** Option handling of the constructor (index.js:17-25): no options and an
      options object without a shape are refused; a bare array is the shape;
      a getter in the options replaces the prototype's. */
  function Configure(options: Options): (r: Result<Config>)
    ensures r.Failure? <==> options.Unset? || (options.Settings? && options.shape.None?)
    ensures r.Failure? ==> r.error == MissingShape
    ensures options.ShapeArray? ==> r == Success(Config(options.extents, ZerosGetter()))
    ensures options.Settings? && options.shape.Some? ==>
              && r.Success? && r.value.shape == options.shape.value
              && r.value.getter == if options.getter.Some? then options.getter.value else ZerosGetter()
  {
    match options
    case Unset => Failure(MissingShape)
    case ShapeArray(a) => Success(Config(a, ZerosGetter()))
    case Settings(shape, getter) =>
      var g := if getter.Some? then getter.value else ZerosGetter();
      if shape.None? then Failure(MissingShape) else Success(Config(shape.value, g))
  }

  /** `Continuous(options)` and `new Continuous(options)`. */
  method New(options: Options) returns (r: Result<Field>)
    requires options.Settings? && options.shape.Some? && options.getter.Some? ==>
               Honest(options.getter.value, options.shape.value)
    ensures r.Failure? <==> Configure(options).Failure?
    ensures r.Failure? ==> r.error == MissingShape
    ensures r.Success? ==>
              && fresh(r.value) && r.value.Valid()
              && r.value.shape == Configure(options).value.shape
              && r.value.getter == Configure(options).value.getter
              && r.value.index == map[] && r.value.waiting == [] && r.value.log == []
  {
    var c := Configure(options);
    if c.Failure? {
      return Failure(c.error);
    }
    if !options.Settings? || options.getter.None? {
      ZerosGetterFills(c.value.shape, []);
    }
    var f := new Field(c.value);
    r := Success(f);
  }

  lemma AppendTwo<T>(s: seq<T>, x: T, y: T)
    ensures s + [x] + [y] == s + [x, y]
  {
  }

  /** The running-size loop of index.js:32-36: offsets[i] is the product of
      the extents before axis i. */
  method StridesOf(w: seq<int>) returns (offs: seq<int>)
    ensures offs == Offsets(w)
  {
    offs := [];
    var size := 1;
    var i := 0;
    while i < |w|
      invariant 0 <= i <= |w|
      invariant offs == Offsets(w[..i]) && size == Product(w[..i])
    {
      assert w[..i + 1][..i] == w[..i];
      offs := offs + [size];
      size := size * w[i];
      i := i + 1;
    }
    assert w[..i] == w;
  }

  /** The loop of index.js:95-97: the extents of the box of chunk
      coordinates from hi to lo, one more than the difference on each axis. */
  method BoxShape(hi: seq<int>, lo: seq<int>) returns (ext: seq<int>)
    requires |hi| == |lo|
    ensures ext == Extents(hi, lo)
    ensures Ordered(hi, lo) ==> Positive(ext) && |Cells(hi, lo)| == Product(ext)
  {
    ext := [];
    var i := 0;
    while i < |hi|
      invariant 0 <= i <= |hi|
      invariant |ext| == i && forall d :: 0 <= d < i ==> ext[d] == lo[d] - hi[d] + 1
    {
      ext := ext + [lo[i] - hi[i] + 1];
      i := i + 1;
    }
  }

  /** The ordering step of `group` as evidently intended: `cells(hi, lo)`
      sorted in place by the comparator of index.js:75-85, keyed by the
      strides of the box's own extents (index.js:95-97) rather than the
      field's offsets. The result is the box's layout on every box. */
  method Enumerate(hi: seq<int>, lo: seq<int>) returns (order: seq<seq<int>>, ext: seq<int>)
    requires |hi| == |lo| && Ordered(hi, lo)
    ensures ext == Extents(hi, lo)
    ensures order == Cells(hi, lo)
  {
    ext := BoxShape(hi, lo);
    var strides := StridesOf(ext);
    var cs := Cells(hi, lo);
    CellsSpec(hi, lo);
    var positions := new seq<int>[|cs|](k requires 0 <= k < |cs| => cs[k]);
    assert positions[..] == cs;
    SortByKey(positions, strides);
    order := positions[..];
    BoxOrderIsLayout(order, hi, lo);
  }

  class Field {
    const shape: seq<int>
    const dims: nat
    const offsets: seq<int>
    const getter: Getter
    var index: map<string, ChunkArray>
    /** The getter callbacks that have not fired yet. */
    var waiting: seq<Waiting>
    /** What the outside world has seen: getter calls, events, callbacks. */
    ghost var log: seq<Event>

    ghost function Snapshot(): State
      reads this
    {
      State(index, waiting, log)
    }

    ghost predicate Valid()
      reads this
    {
      && dims == |shape|
      && offsets == Offsets(shape)
      && Honest(getter, shape)
      && Wellformed(Snapshot(), shape)
    }

    /** The constructor body after option handling (index.js:27-36): an empty
        index, and the strides of the chunk shape as offsets. */
    constructor (config: Config)
      requires Honest(config.getter, config.shape)
      ensures Valid()
      ensures shape == config.shape && getter == config.getter
      ensures offsets == Offsets(config.shape)
      ensures index == map[] && waiting == [] && log == []
    {
      var offs := StridesOf(config.shape);
      shape := config.shape;
      dims := |config.shape|;
      offsets := offs;
      getter := config.getter;
      index := map[];
      waiting := [];
      log := [];
    }

    /** The callback `chunk` hands the getter (index.js:51-60). */
    method Complete(key: string, position: seq<int>, done: Callback, res: GetResult) returns (reply: Reply)
      modifies this
      ensures Snapshot() == Settle(old(Snapshot()), key, position, done, res)
      ensures reply == if res.Ok? then GotChunk(ChunkArray(res.data, position)) else Failed(res.error)
    {
      match res
      case Err(e) =>
        log := log + [Done(done, Failed(e))];
        reply := Failed(e);
      case Ok(data) =>
        var c := ChunkArray(data, position);
        index := index[key := c];
        log := log + [Created(c)];
        log := log + [Done(done, GotChunk(c))];
        reply := GotChunk(c);
    }

    /** `chunk(position, done)` (index.js:43-63). */
    method Chunk(position: seq<int>, done: Callback) returns (r: Option<ChunkArray>, reply: Option<Reply>)
      requires Valid()
      modifies this
      ensures Valid()
      ensures var f := ChunkStep(getter, shape, old(Snapshot()), position, done);
              Snapshot() == f.state && r == f.ret && reply == f.reply
    {
      ChunkStepWellformed(getter, shape, Snapshot(), position, done);
      var key := Key(position);
      if key in index {
        var c := index[key];
        log := log + [Done(done, GotChunk(c))];
        return Some(c), Some(GotChunk(c));
      }
      log := log + [GetterCalled(position)];
      var d := getter(shape, position);
      if d.Now? {
        var got := Complete(key, position, done, d.result);
        reply := Some(got);
        r := if key in index then Some(index[key]) else None;
      } else {
        waiting := waiting + [Waiting(key, position, done)];
        r, reply := None, None;
      }
    }

    /** The getter calls back the i-th waiting request with its answer res,
        an ndarray of the field's shape or an error. */
    method Deliver(i: nat, res: GetResult) returns (reply: Reply)
      requires Valid() && i < |waiting|
      requires res.Ok? ==> res.data.shape == shape
      modifies this
      ensures Valid()
      ensures Snapshot() == DeliverStep(old(Snapshot()), i, res)
      ensures reply == if res.Ok? then GotChunk(ChunkArray(res.data, old(waiting)[i].position)) else Failed(res.error)
    {
      DeliverStepWellformed(Snapshot(), shape, i, res);
      var w := waiting[i];
      waiting := waiting[..i] + waiting[i + 1..];
      reply := Complete(w.key, w.position, w.done, res);
    }

    /** `remove(position, done)` (index.js:136-145) with the `removed` event
        emitted on the field itself. */
    method Remove(position: seq<int>, done: Callback) returns (removed: bool)
      requires Valid()
      modifies this
      ensures Valid()
      ensures (Snapshot(), removed) == RemoveStep(old(Snapshot()), position, done)
    {
      RemoveStepWellformed(Snapshot(), shape, position, done);
      var key := Key(position);
      if key !in index {
        log := log + [Done(done, NoValue)];
        return false;
      }
      log := log + [Removed(index[key])];
      index := index - {key};
      removed := true;
    }

    /** `remove` as written: `self` is not bound there, so a cached chunk
        makes it throw before it emits or deletes anything. */
    method RemoveAsWritten(position: seq<int>, done: Callback) returns (out: Outcome<bool>)
      requires Valid()
      modifies this
      ensures Valid()
      ensures (Snapshot(), out) == RemoveAsWrittenStep(old(Snapshot()), position, done)
    {
      var key := Key(position);
      if key !in index {
        log := log + [Done(done, NoValue)];
        return Returned(false);
      }
      out := Threw(UnboundSelf);
    }

    /** `cells(hi, lo)` sorted in place by the comparator of index.js:75-85
        as written, keyed by the field's offsets: ascending by that key, and
        the box's layout whenever the box is narrow (though not on every
        box). */
    method EnumerateAsWritten(hi: seq<int>, lo: seq<int>) returns (order: seq<seq<int>>)
      requires Valid() && |hi| == |lo| == dims && Ordered(hi, lo)
      ensures Dimensioned(order, |shape|) && SortedByKey(order, offsets)
      ensures multiset(order) == multiset(Cells(hi, lo))
      ensures Positive(shape) && Narrow(hi, lo, shape) ==> order == Cells(hi, lo)
    {
      var cs := Cells(hi, lo);
      var positions := new seq<int>[|cs|](k requires 0 <= k < |cs| => cs[k]);
      assert positions[..] == cs;
      SortByKey(positions, offsets);
      order := positions[..];
      if Positive(shape) && Narrow(hi, lo, shape) {
        SortedIsLayout(order, hi, lo, shape);
      }
    }

    /** `map-async` over the sorted coordinates, each item calling
        `chunk(position, next)` (index.js:89-91). */
    method Dispatch(ps: seq<seq<int>>) returns (replies: seq<Option<Reply>>)
      requires Valid()
      modifies this
      ensures Valid()
      ensures Snapshot() == FetchAll(getter, shape, old(Snapshot()), ps).0
      ensures replies == FetchAll(getter, shape, old(Snapshot()), ps).1
    {
      ghost var st0 := Snapshot();
      replies := [];
      var i := 0;
      while i < |ps|
        invariant 0 <= i <= |ps|
        invariant Valid()
        invariant Snapshot() == FetchAll(getter, shape, st0, ps[..i]).0
        invariant replies == FetchAll(getter, shape, st0, ps[..i]).1
      {
        assert ps[..i + 1][..i] == ps[..i];
        var _, reply := Chunk(ps[i], Step);
        replies := replies + [reply];
        i := i + 1;
      }
      assert ps[..i] == ps;
    }

    /** The shared part of `group` (index.js:66-91): enumerate the box in
        its layout, request every chunk in that order and gather the
        replies. */
    method Fetch(hi: seq<int>, lo: seq<int>) returns (g: Gathered, ext: seq<int>)
      requires Valid() && |hi| == |lo| == dims && Ordered(hi, lo)
      modifies this
      ensures Valid()
      ensures ext == Extents(hi, lo)
      ensures Snapshot() == FetchAll(getter, shape, old(Snapshot()), Cells(hi, lo)).0
      ensures g == Gather(FetchAll(getter, shape, old(Snapshot()), Cells(hi, lo)).1)
    {
      var order;
      order, ext := Enumerate(hi, lo);
      var replies := Dispatch(order);
      g := Gather(replies);
    }

    /** A call of a `done` callback. */
    method Report(done: Callback, reply: Reply)
      requires Valid()
      modifies this
      ensures Valid()
      ensures index == old(index) && waiting == old(waiting)
      ensures log == old(log) + [Done(done, reply)]
    {
      log := log + [Done(done, reply)];
    }

    /** `group(hi, lo, done)` (index.js:65-104), with the corrected order:
        the chunks from chunk coordinate hi to lo as one composite ndarray,
        passed to `done` and returned when every chunk was at hand; `outcome`
        is what `done` received before the call returned. */
    method Group(hi: seq<int>, lo: seq<int>, done: Callback) returns (r: Option<View>, outcome: Option<Reply>)
      requires Valid() && |hi| == |lo| == dims && Positive(shape) && Ordered(hi, lo)
      modifies this
      ensures Valid()
      ensures var fa := FetchAll(getter, shape, old(Snapshot()), Cells(hi, lo));
              var g := Gather(fa.1);
              && index == fa.0.index && waiting == fa.0.waiting
              && (g.Gathered? ==> r.Some? && outcome == Some(GotView(r.value)))
              && (g.GatherFailed? ==> r.None? && outcome == Some(Failed(g.error)))
              && (g.Outstanding? ==> r.None? && outcome.None?)
              && log == fa.0.log + (if outcome.Some? then [Done(done, outcome.value)] else [])
      ensures r.Some? ==> r.value.shape == Scale(Extents(hi, lo), shape)
      ensures r.Some? ==> Shows(index, shape, Scale(hi, shape), r.value)
    {
      ghost var st0 := Snapshot();
      var g, ext := Fetch(hi, lo);
      match g
      case Gathered(arrays) =>
        assert Wellformed(st0, shape);
        GroupValues(getter, shape, st0, hi, lo);
        var v := Compose(ext, arrays);
        Report(done, GotView(v));
        r, outcome := Some(v), Some(GotView(v));
      case GatherFailed(e) =>
        Report(done, Failed(e));
        r, outcome := None, Some(Failed(e));
      case Outstanding =>
        r, outcome := None, None;
    }

    /** The loop of index.js:116-122: the chunk box covering the cells from
        hi to lo, and the crop offsets into its composite. */
    method Plan(hi: seq<int>, lo: seq<int>) returns (hiChunk: seq<int>, loChunk: seq<int>, tl: seq<int>, br: seq<int>)
      requires Valid() && |hi| == |lo| == dims && Positive(shape) && Ordered(hi, lo)
      ensures hiChunk == ChunkBox(hi, lo, shape).hi && loChunk == ChunkBox(hi, lo, shape).lo
      ensures tl == TopLeft(hi, lo, shape) && br == BottomRight(hi, lo, shape)
      ensures Ordered(hiChunk, loChunk)
      ensures forall d :: 0 <= d < dims ==>
                && hiChunk[d] * shape[d] <= hi[d] && lo[d] < (loChunk[d] + 1) * shape[d]
                && 0 <= tl[d] < shape[d] && br[d] - tl[d] == lo[d] - hi[d] + 1
                && hiChunk[d] * shape[d] + tl[d] == hi[d]
    {
      hiChunk, loChunk, tl, br := [], [], [], [];
      var i := 0;
      while i < dims
        invariant 0 <= i <= dims
        invariant |hiChunk| == |loChunk| == |tl| == |br| == i
        invariant forall d :: 0 <= d < i ==>
                    && hiChunk[d] == PlanAxis(hi[d], lo[d], shape[d]).hiChunk
                    && loChunk[d] == PlanAxis(hi[d], lo[d], shape[d]).loChunk
                    && tl[d] == PlanAxis(hi[d], lo[d], shape[d]).tl
                    && br[d] == PlanAxis(hi[d], lo[d], shape[d]).br
      {
        var s := shape[i];
        var h := FloorDiv(hi[i], s);
        var l := CeilDiv(lo[i], s);
        hiChunk := hiChunk + [h];
        loChunk := loChunk + [l];
        tl := tl + [-h * s + hi[i]];
        br := br + [-h * s + lo[i] + 1];
        i := i + 1;
      }
      forall d | 0 <= d < dims
        ensures hiChunk[d] * shape[d] <= hi[d] && lo[d] < (loChunk[d] + 1) * shape[d]
        ensures 0 <= tl[d] < shape[d] && br[d] - tl[d] == lo[d] - hi[d] + 1
        ensures hiChunk[d] * shape[d] + tl[d] == hi[d]
      {
        PlanAxisCovers(hi[d], lo[d], shape[d]);
      }
    }

    /** `range(hi, lo, done)` (index.js:106-134) over `group`'s corrected
        order (the comparator finding at index.js:75-85): the cells from
        absolute coordinate hi to lo, cut out of the composite of the chunks
        that cover them. */
    method Range(hi: seq<int>, lo: seq<int>, done: Callback)
      returns (r: Option<View>, ghost composite: Option<View>)
      requires Valid() && |hi| == |lo| == dims && Positive(shape) && Ordered(hi, lo)
      modifies this
      ensures Valid()
      ensures var cb := ChunkBox(hi, lo, shape);
              var fa := FetchAll(getter, shape, old(Snapshot()), Cells(cb.hi, cb.lo));
              var g := Gather(fa.1);
              && index == fa.0.index && waiting == fa.0.waiting
              && (g.Gathered? ==>
                    && r.Some? && composite.Some?
                    && log == fa.0.log + [Done(Crop, GotView(composite.value)), Done(done, GotView(r.value))])
              && (g.GatherFailed? ==>
                    r.None? && log == fa.0.log + [Done(Crop, Failed(g.error)), Done(done, Failed(g.error))])
              && (g.Outstanding? ==> r.None? && log == fa.0.log)
      ensures r.Some? ==> r.value.shape == Extents(hi, lo)
      ensures r.Some? ==> Shows(index, shape, hi, r.value)
    {
      var hiChunk, loChunk, tl, br := Plan(hi, lo);
      ghost var st0 := Snapshot();
      var grouped, outcome := Group(hiChunk, loChunk, Crop);
      ghost var fa := FetchAll(getter, shape, st0, Cells(hiChunk, loChunk));
      var reply;
      r, reply := Cut(hi, lo, tl, br, outcome);
      composite := if outcome.Some? && outcome.value.GotView? then Some(outcome.value.view) else None;
      if reply.Some? {
        Report(done, reply.value);
      }
      if Gather(fa.1).Gathered? {
        AppendTwo(fa.0.log, Done(Crop, GotView(composite.value)), Done(done, GotView(r.value)));
      } else if Gather(fa.1).GatherFailed? {
        AppendTwo(fa.0.log, Done(Crop, Failed(Gather(fa.1).error)), Done(done, Failed(Gather(fa.1).error)));
      }
    }

    /** The callback `range` hands to `group` (index.js:124-131): an error is
        passed on; a composite is cut at br, then at tl, and the crop is
        passed on. `reply` is what the callback hands the caller's `done`. */
    method Cut(hi: seq<int>, lo: seq<int>, tl: seq<int>, br: seq<int>, outcome: Option<Reply>)
      returns (r: Option<View>, reply: Option<Reply>)
      requires |hi| == |lo| == |shape| && Positive(shape) && Ordered(hi, lo)
      requires tl == TopLeft(hi, lo, shape) && br == BottomRight(hi, lo, shape)
      requires outcome.Some? && outcome.value.GotView? ==> CoversBox(index, shape, hi, lo, outcome.value.view)
      ensures outcome.Some? && outcome.value.GotView? ==> r.Some? && reply == Some(GotView(r.value))
      ensures outcome.Some? && outcome.value.Failed? ==> r.None? && reply == outcome
      ensures !(outcome.Some? && (outcome.value.GotView? || outcome.value.Failed?)) ==> r.None? && reply.None?
      ensures r.Some? ==> r.value.shape == Extents(hi, lo)
      ensures r.Some? ==> Shows(index, shape, hi, r.value)
    {
      match outcome
      case Some(GotView(comp)) =>
        assert CoversBox(index, shape, hi, lo, comp);
        ghost var cb := ChunkBox(hi, lo, shape);
        assert |comp.shape| == |Scale(Extents(cb.hi, cb.lo), shape)| == |shape|;
        var cropped := Lo(Hi(comp, br), tl);
        CropShows(index, shape, comp, hi, lo);
        r, reply := Some(cropped), Some(GotView(cropped));
      case Some(Failed(e)) =>
        r, reply := None, outcome;
      case _ =>
        r, reply := None, None;
    }
  }
}
