/** The cache state machine of `chunk` (index.js:43-63) and `remove`
    (index.js:136-145) as pure transitions over the field's state: the
    `index` dictionary, the getter callbacks that have not fired yet, and a
    log of what the outside world observes (getter calls, `created` and
    `removed` events, calls of the `done` callbacks). There is no table of
    requests in flight: a second miss before the first getter answers calls
    the getter again. */
module Cache {
  import opened Keys
  import opened Strides
  import opened NdArray

  datatype Option<T> = None | Some(value: T)

  datatype Error = Error(message: string)

  /** What a getter passes its callback: an ndarray or an error. */
  datatype GetResult = Ok(data: View) | Err(error: Error)

  /** When the getter calls its callback: before it returns, with its
      answer, or later, with an answer only known when it arrives. */
  datatype Delivery = Now(result: GetResult) | Later

  /** A getter, called as `getter.call(field, position, callback)`; it sees
      the field's shape and the coordinate. Whether it answers at once is
      decided by the call; what it answers later is not, so two late
      requests for one coordinate can receive different ndarrays. */
  type Getter = (seq<int>, seq<int>) -> Delivery

  /** A chunk: the getter's ndarray with its `.position` tag. */
  datatype ChunkArray = ChunkArray(data: View, position: seq<int>)

  /** A `done` argument: a caller's function, the `noop` default, the
      per-item callback `map-async` passes to `chunk`, or the closure `range`
      passes to `group`. */
  datatype Callback = Noop | Caller(id: nat) | Step | Crop

  /** The arguments a callback receives. */
  datatype Reply = Failed(error: Error) | NoValue | GotChunk(chunk: ChunkArray) | GotView(view: View)

  datatype Event =
    | GetterCalled(position: seq<int>)
    | Created(chunk: ChunkArray)
    | Removed(chunk: ChunkArray)
    | Done(callback: Callback, reply: Reply)

  /** A getter callback that has not fired: the closure of index.js:51-60
      with what it captured. */
  datatype Waiting = Waiting(key: string, position: seq<int>, done: Callback)

  datatype State = State(index: map<string, ChunkArray>, waiting: seq<Waiting>, log: seq<Event>)

  /** The outcome of one `chunk` call: the new state, the return value, and
      the reply `done` received before the call returned, if any. */
  datatype Fetch = Fetch(state: State, ret: Option<ChunkArray>, reply: Option<Reply>)

  /** The outcome of a call that may throw. */
  datatype Outcome<T> = Returned(value: T) | Threw(error: Error)

  /** The getter only ever hands out ndarrays of the field's shape (for its
      late answers, `Field.Deliver` asks the same of each answer). */
  ghost predicate Honest(getter: Getter, shape: seq<int>)
  {
    forall p :: getter(shape, p).Now? && getter(shape, p).result.Ok? ==> getter(shape, p).result.data.shape == shape
  }

  /** Every chunk is stored under the key of its own position tag and has the
      field's shape; every waiting callback will store under its coordinate's
      key. */
  ghost predicate Wellformed(st: State, shape: seq<int>)
  {
    && (forall k :: k in st.index ==> st.index[k].data.shape == shape && Key(st.index[k].position) == k)
    && (forall w :: w in st.waiting ==> w.key == Key(w.position))
  }

  /** The body of the getter callback (index.js:51-60): on an error only
      `done(err)`; otherwise store the chunk, tag it with a copy of the
      coordinate, emit `created`, then `done(null, chunk)`. */
  function Settle(st: State, key: string, position: seq<int>, done: Callback, res: GetResult): (r: State)
    ensures r.waiting == st.waiting && st.index.Keys <= r.index.Keys
    ensures res.Err? ==> r.index == st.index
    ensures res.Ok? ==> r.index == st.index[key := ChunkArray(res.data, position)]
    ensures |st.log| < |r.log| && r.log[..|st.log|] == st.log
    ensures r.log[|r.log| - 1] == Done(done, if res.Ok? then GotChunk(ChunkArray(res.data, position)) else Failed(res.error))
  {
    match res
    case Err(e) => st.(log := st.log + [Done(done, Failed(e))])
    case Ok(data) =>
      var c := ChunkArray(data, position);
      State(st.index[key := c], st.waiting, st.log + [Created(c), Done(done, GotChunk(c))])
  }

  function Lookup(index: map<string, ChunkArray>, key: string): Option<ChunkArray>
  {
    if key in index then Some(index[key]) else None
  }

  /** `chunk(position, done)`. */
  function ChunkStep(getter: Getter, shape: seq<int>, st: State, position: seq<int>, done: Callback): (r: Fetch)
    ensures |st.log| < |r.state.log| && r.state.log[..|st.log|] == st.log
    ensures st.index.Keys <= r.state.index.Keys
  {
    var key := Key(position);
    if key in st.index then
      var c := st.index[key];
      Fetch(st.(log := st.log + [Done(done, GotChunk(c))]), Some(c), Some(GotChunk(c)))
    else
      var called := st.(log := st.log + [GetterCalled(position)]);
      match getter(shape, position)
      case Now(res) =>
        var st' := Settle(called, key, position, done, res);
        Fetch(st', Lookup(st'.index, key), Some(if res.Ok? then GotChunk(ChunkArray(res.data, position)) else Failed(res.error)))
      case Later =>
        Fetch(called.(waiting := called.waiting + [Waiting(key, position, done)]), None, None)
  }

  /** The getter calls the i-th waiting callback with its answer res. */
  function DeliverStep(st: State, i: nat, res: GetResult): (r: State)
    requires i < |st.waiting|
    ensures r.waiting == st.waiting[..i] + st.waiting[i + 1..]
    ensures |st.log| < |r.log| && r.log[..|st.log|] == st.log
    ensures r.log[|r.log| - 1].Done? && r.log[|r.log| - 1].callback == st.waiting[i].done
  {
    var w := st.waiting[i];
    Settle(st.(waiting := st.waiting[..i] + st.waiting[i + 1..]), w.key, w.position, w.done, res)
  }

  /** `remove(position, done)` as index.js:136-145 is evidently meant to
      behave: absent, `done(null)` and false; present, emit `removed` on the
      field, delete the entry and return true (`done` is not called on that
      path, as in the source). */
  function RemoveStep(st: State, position: seq<int>, done: Callback): (r: (State, bool))
    ensures r.1 <==> Key(position) in st.index
    ensures r.0.index.Keys == st.index.Keys - {Key(position)}
    ensures r.0.waiting == st.waiting
  {
    var key := Key(position);
    if key !in st.index then (st.(log := st.log + [Done(done, NoValue)]), false)
    else (State(st.index - {key}, st.waiting, st.log + [Removed(st.index[key])]), true)
  }

  /** The error `self.emit` raises: `self` is not bound in `remove`. */
  const UnboundSelf := Error("ReferenceError: self is not defined")

  /** `remove` as written: on a present chunk, evaluating `self.emit` throws
      before anything is emitted or deleted. */
  function RemoveAsWrittenStep(st: State, position: seq<int>, done: Callback): (r: (State, Outcome<bool>))
    ensures r.1.Threw? <==> Key(position) in st.index
    ensures r.0.index == st.index && r.0.waiting == st.waiting
  {
    var key := Key(position);
    if key !in st.index then (st.(log := st.log + [Done(done, NoValue)]), Returned(false))
    else (st, Threw(UnboundSelf))
  }

  /** `map-async` dispatching `chunk(position, next)` for every coordinate in
      order: the state afterwards and, per coordinate, the reply its `next`
      received before `chunk` returned. */
  function FetchAll(getter: Getter, shape: seq<int>, st: State, ps: seq<seq<int>>): (r: (State, seq<Option<Reply>>))
    ensures |r.1| == |ps|
    ensures |st.log| <= |r.0.log| && r.0.log[..|st.log|] == st.log
    decreases |ps|
  {
    if |ps| == 0 then (st, [])
    else
      var prev := FetchAll(getter, shape, st, ps[..|ps| - 1]);
      var f := ChunkStep(getter, shape, prev.0, ps[|ps| - 1], Step);
      (f.state, prev.1 + [f.reply])
  }

  /** What `map-async` hands its final callback once every item has replied:
      the first error, or every chunk's ndarray in input order; Outstanding
      while some item has not replied and none has failed. */
  datatype Gathered = Gathered(arrays: seq<View>) | GatherFailed(error: Error) | Outstanding

  function Gather(rs: seq<Option<Reply>>): (r: Gathered)
    ensures r.Gathered? ==> |r.arrays| == |rs|
    ensures r.GatherFailed? ==> exists i :: 0 <= i < |rs| && rs[i] == Some(Failed(r.error))
    decreases |rs|
  {
    if |rs| == 0 then Gathered([])
    else if rs[0].Some? && rs[0].value.Failed? then GatherFailed(rs[0].value.error)
    else
      var rest := Gather(rs[1..]);
      if rest.GatherFailed? then rest
      else if rs[0].Some? && rs[0].value.GotChunk? && rest.Gathered? then
        Gathered([rs[0].value.chunk.data] + rest.arrays)
      else Outstanding
  }

  /** The value the field holds at absolute coordinate a, if its chunk is
      cached: the chunk at floor(a / shape), local index a mod shape. */
  function Value(index: map<string, ChunkArray>, shape: seq<int>, a: seq<int>): Option<int>
    requires |a| == |shape| && Positive(shape)
  {
    var key := Key(DivAxes(a, shape));
    if key in index then Some(index[key].data.at(ModAxes(a, shape))) else None
  }
}
