/** What the cache transitions promise: a hit never calls the getter, a
    successful miss stores the chunk tagged with its coordinate and reports
    `created` before `done`, a failed miss stores nothing, two misses in
    flight call the getter twice, `remove` forgets a chunk so the next
    request calls the getter again, and dispatching a list of coordinates
    leaves an index that agrees with every reply. */
module CacheLaws {
  import opened Keys
  import opened NdArray
  import opened Cache

  /** The getter hands this coordinate a chunk before it returns. */
  ghost predicate Fresh(getter: Getter, shape: seq<int>, p: seq<int>)
  {
    getter(shape, p).Now? && getter(shape, p).result.Ok?
  }

  /** A cached chunk is returned and passed to `done`; the getter is not
      called, nothing is created and the index does not change. */
  lemma ChunkHit(getter: Getter, shape: seq<int>, st: State, position: seq<int>, done: Callback)
    requires Key(position) in st.index
    ensures var f := ChunkStep(getter, shape, st, position, done);
            var c := st.index[Key(position)];
            && f.ret == Some(c) && f.reply == Some(GotChunk(c))
            && f.state.index == st.index && f.state.waiting == st.waiting
            && f.state.log == st.log + [Done(done, GotChunk(c))]
  {
  }

  /** A miss answered at once with an ndarray stores it under the
      coordinate's key, tagged with the coordinate, returns it, and logs the
      getter call, then `created`, then `done` with the chunk. */
  lemma ChunkMissStores(getter: Getter, shape: seq<int>, st: State, position: seq<int>, done: Callback)
    requires Key(position) !in st.index && Fresh(getter, shape, position)
    ensures var f := ChunkStep(getter, shape, st, position, done);
            var c := ChunkArray(getter(shape, position).result.data, position);
            && f.ret == Some(c) && f.reply == Some(GotChunk(c))
            && f.state.index == st.index[Key(position) := c]
            && f.state.waiting == st.waiting
            && f.state.log == st.log + [GetterCalled(position), Created(c), Done(done, GotChunk(c))]
  {
  }

  /** A miss answered at once with an error passes the error to `done`,
      returns nothing and stores nothing. */
  lemma ChunkMissFails(getter: Getter, shape: seq<int>, st: State, position: seq<int>, done: Callback)
    requires Key(position) !in st.index
    requires getter(shape, position).Now? && getter(shape, position).result.Err?
    ensures var f := ChunkStep(getter, shape, st, position, done);
            var e := getter(shape, position).result.error;
            && f.ret == None && f.reply == Some(Failed(e))
            && f.state.index == st.index && f.state.waiting == st.waiting
            && f.state.log == st.log + [GetterCalled(position), Done(done, Failed(e))]
  {
  }

  /** A miss the getter answers later returns nothing, calls nobody back and
      leaves one more callback waiting. */
  lemma ChunkMissWaits(getter: Getter, shape: seq<int>, st: State, position: seq<int>, done: Callback)
    requires Key(position) !in st.index && getter(shape, position).Later?
    ensures var f := ChunkStep(getter, shape, st, position, done);
            && f.ret == None && f.reply == None
            && f.state.index == st.index
            && f.state.waiting == st.waiting + [Waiting(Key(position), position, done)]
            && f.state.log == st.log + [GetterCalled(position)]
  {
  }

  /** What a reply of `chunk` tells about the index afterwards, whatever the
      getter does: a chunk reply is the stored chunk, an error reply or no
      reply means the coordinate was not cached; the index only ever gains
      the getter's chunk for this coordinate. */
  lemma ChunkStepReply(getter: Getter, shape: seq<int>, st: State, p: seq<int>, done: Callback)
    ensures var f := ChunkStep(getter, shape, st, p, done);
            && (f.reply.Some? ==> f.reply.value.GotChunk? || f.reply.value.Failed?)
            && (f.reply.Some? && f.reply.value.GotChunk? ==>
                  Key(p) in f.state.index && f.state.index[Key(p)] == f.reply.value.chunk)
            && (f.reply.Some? && f.reply.value.Failed? ==>
                  Key(p) !in st.index && getter(shape, p) == Now(Err(f.reply.value.error)))
            && (f.reply.None? ==> Key(p) !in st.index && getter(shape, p).Later?)
  {
    if Key(p) !in st.index && getter(shape, p).Now? {
      var res := getter(shape, p).result;
      var called := st.(log := st.log + [GetterCalled(p)]);
      assert ChunkStep(getter, shape, st, p, done).state == Settle(called, Key(p), p, done, res);
    }
  }

  /** `chunk` leaves the index alone or adds the getter's chunk under a key
      that was missing. */
  lemma ChunkStepIndex(getter: Getter, shape: seq<int>, st: State, p: seq<int>, done: Callback)
    ensures var f := ChunkStep(getter, shape, st, p, done);
            || f.state.index == st.index
            || (Key(p) !in st.index && Fresh(getter, shape, p)
                && f.state.index == st.index[Key(p) := ChunkArray(getter(shape, p).result.data, p)])
  {
  }

  /** No request is single-flighted: two requests for the same coordinate
      before the getter answers call the getter twice and leave two
      callbacks waiting, in request order. */
  lemma NoSingleFlight(getter: Getter, shape: seq<int>, st: State, position: seq<int>,
                       first: Callback, second: Callback)
    requires Key(position) !in st.index && getter(shape, position).Later?
    ensures var s1 := ChunkStep(getter, shape, st, position, first).state;
            var s2 := ChunkStep(getter, shape, s1, position, second).state;
            && s2 == Requested(getter, shape, st, position, first, second)
            && Key(position) !in s2.index && s2.index == st.index
            && s2.log == st.log + [GetterCalled(position), GetterCalled(position)]
            && s2.waiting == st.waiting + [Waiting(Key(position), position, first), Waiting(Key(position), position, second)]
  {
    var s1 := ChunkStep(getter, shape, st, position, first).state;
    ChunkMissWaits(getter, shape, st, position, first);
    ChunkMissWaits(getter, shape, s1, position, second);
  }

  /** The two answers arrive in request order, whatever they are: each
      creates its own chunk and reaches its own caller's `done`, nothing is
      left waiting, and the index keeps the second answer's chunk. */
  lemma AnsweredInOrder(getter: Getter, shape: seq<int>, st: State, position: seq<int>,
                        first: Callback, second: Callback, a1: View, a2: View)
    requires Key(position) !in st.index && getter(shape, position).Later?
    ensures var s2 := Requested(getter, shape, st, position, first, second);
            var n := |st.waiting|;
            var c1, c2 := ChunkArray(a1, position), ChunkArray(a2, position);
            var s4 := DeliverStep(DeliverStep(s2, n, Ok(a1)), n, Ok(a2));
            && s4.waiting == st.waiting
            && s4.index == st.index[Key(position) := c2]
            && s4.log == s2.log + [Created(c1), Done(first, GotChunk(c1)), Created(c2), Done(second, GotChunk(c2))]
  {
    var key := Key(position);
    var w1, w2 := Waiting(key, position, first), Waiting(key, position, second);
    NoSingleFlight(getter, shape, st, position, first, second);
    var s2 := Requested(getter, shape, st, position, first, second);
    DeliverBeforeLast(s2, st.waiting, w1, w2, Ok(a1));
    var s3 := Settle(s2.(waiting := st.waiting + [w2]), key, position, first, Ok(a1));
    assert s3.waiting == st.waiting + [w2];
    DeliverLast(s3, st.waiting, w2, Ok(a2));
    SettleTwice(s2.(waiting := st.waiting + [w2]), key, position, first, second, a1, a2);
  }

  /** The two answers arrive in reverse order, whatever they are: again each
      reaches its own caller's `done`, and the index keeps the first
      request's chunk, the one delivered last. */
  lemma AnsweredReversed(getter: Getter, shape: seq<int>, st: State, position: seq<int>,
                         first: Callback, second: Callback, a1: View, a2: View)
    requires Key(position) !in st.index && getter(shape, position).Later?
    ensures var s2 := Requested(getter, shape, st, position, first, second);
            var n := |st.waiting|;
            var c1, c2 := ChunkArray(a1, position), ChunkArray(a2, position);
            var s4 := DeliverStep(DeliverStep(s2, n + 1, Ok(a2)), n, Ok(a1));
            && s4.waiting == st.waiting
            && s4.index == st.index[Key(position) := c1]
            && s4.log == s2.log + [Created(c2), Done(second, GotChunk(c2)), Created(c1), Done(first, GotChunk(c1))]
  {
    var key := Key(position);
    var w1, w2 := Waiting(key, position, first), Waiting(key, position, second);
    NoSingleFlight(getter, shape, st, position, first, second);
    var s2 := Requested(getter, shape, st, position, first, second);
    DeliverLast(s2, st.waiting + [w1], w2, Ok(a2));
    var s3 := Settle(s2.(waiting := st.waiting + [w1]), key, position, second, Ok(a2));
    assert s3.waiting == st.waiting + [w1];
    DeliverLast(s3, st.waiting, w1, Ok(a1));
    SettleTwice(s2.(waiting := st.waiting + [w1]), key, position, second, first, a2, a1);
  }

  /** Two answers stored under one key: both chunks are created and reach
      their own callbacks in delivery order, and the second one stays. */
  lemma SettleTwice(st: State, key: string, position: seq<int>, d1: Callback, d2: Callback, a1: View, a2: View)
    ensures var c1, c2 := ChunkArray(a1, position), ChunkArray(a2, position);
            var s := Settle(Settle(st, key, position, d1, Ok(a1)), key, position, d2, Ok(a2));
            && s.index == st.index[key := c2]
            && s.log == st.log + [Created(c1), Done(d1, GotChunk(c1)), Created(c2), Done(d2, GotChunk(c2))]
  {
  }

  /** Delivering to the last waiting callback runs it on what waited before. */
  lemma DeliverLast(st: State, before: seq<Waiting>, w: Waiting, res: GetResult)
    requires st.waiting == before + [w]
    ensures DeliverStep(st, |before|, res) == Settle(st.(waiting := before), w.key, w.position, w.done, res)
  {
    assert st.waiting[..|before|] == before && st.waiting[|before| + 1..] == [];
  }

  /** Delivering to the last but one waiting callback leaves the last one
      waiting. */
  lemma DeliverBeforeLast(st: State, before: seq<Waiting>, w: Waiting, w': Waiting, res: GetResult)
    requires st.waiting == before + [w, w']
    ensures DeliverStep(st, |before|, res) == Settle(st.(waiting := before + [w']), w.key, w.position, w.done, res)
  {
    assert st.waiting[..|before|] == before && st.waiting[|before| + 1..] == [w'];
  }

  /** The state after two requests for one coordinate. */
  function Requested(getter: Getter, shape: seq<int>, st: State, position: seq<int>, first: Callback, second: Callback): (r: State)
    requires Key(position) !in st.index && getter(shape, position).Later?
    ensures |r.waiting| == |st.waiting| + 2
  {
    ChunkMissWaits(getter, shape, st, position, first);
    var s1 := ChunkStep(getter, shape, st, position, first).state;
    ChunkMissWaits(getter, shape, s1, position, second);
    ChunkStep(getter, shape, s1, position, second).state
  }

  /** `remove` of a cached chunk forgets only that chunk, emits `removed`
      with it and returns true; the next request for it calls the getter. */
  lemma RemoveForgets(getter: Getter, shape: seq<int>, st: State, position: seq<int>, done: Callback, later: Callback)
    requires Key(position) in st.index
    ensures var (s1, removed) := RemoveStep(st, position, done);
            && removed
            && s1.index == st.index - {Key(position)}
            && s1.waiting == st.waiting
            && s1.log == st.log + [Removed(st.index[Key(position)])]
            && var s2 := ChunkStep(getter, shape, s1, position, later).state;
               |s2.log| > |s1.log| && s2.log[|s1.log|] == GetterCalled(position)
  {
  }

  /** `remove` of a coordinate that is not cached calls `done` with no
      value, returns false and changes nothing else. */
  lemma RemoveAbsent(st: State, position: seq<int>, done: Callback)
    requires Key(position) !in st.index
    ensures var (s1, removed) := RemoveStep(st, position, done);
            !removed && s1.index == st.index && s1.waiting == st.waiting
            && s1.log == st.log + [Done(done, NoValue)]
  {
  }

  /** `remove` as written throws on a cached chunk and leaves the field as
      it was: the chunk stays cached and the next request is a hit, so the
      getter is not asked again. On an absent coordinate it behaves as
      intended. */
  lemma RemoveAsWrittenKeeps(getter: Getter, shape: seq<int>, st: State, position: seq<int>, done: Callback, later: Callback)
    ensures var (s1, out) := RemoveAsWrittenStep(st, position, done);
            && (Key(position) in st.index ==>
                 && out == Threw(UnboundSelf) && s1 == st
                 && ChunkStep(getter, shape, s1, position, later).ret == Some(st.index[Key(position)])
                 && ChunkStep(getter, shape, s1, position, later).state.log
                    == st.log + [Done(later, GotChunk(st.index[Key(position)]))])
            && (Key(position) !in st.index ==>
                 (s1, out) == (RemoveStep(st, position, done).0, Returned(RemoveStep(st, position, done).1)))
  {
  }

  // ---------------------------------------------------------------------
  // The field's invariant

  lemma SettleWellformed(st: State, shape: seq<int>, key: string, position: seq<int>, done: Callback, res: GetResult)
    requires Wellformed(st, shape)
    requires key == Key(position) && (res.Ok? ==> res.data.shape == shape)
    ensures Wellformed(Settle(st, key, position, done, res), shape)
  {
  }

  lemma ChunkStepWellformed(getter: Getter, shape: seq<int>, st: State, position: seq<int>, done: Callback)
    requires Wellformed(st, shape) && Honest(getter, shape)
    ensures Wellformed(ChunkStep(getter, shape, st, position, done).state, shape)
  {
    var key := Key(position);
    if key !in st.index {
      var called := st.(log := st.log + [GetterCalled(position)]);
      var d := getter(shape, position);
      if d.Now? {
        SettleWellformed(called, shape, key, position, done, d.result);
      } else {
        var s := called.(waiting := called.waiting + [Waiting(key, position, done)]);
        assert forall w :: w in s.waiting ==> w in st.waiting || w == Waiting(key, position, done);
      }
    }
  }

  lemma DeliverStepWellformed(st: State, shape: seq<int>, i: nat, res: GetResult)
    requires Wellformed(st, shape) && i < |st.waiting|
    requires res.Ok? ==> res.data.shape == shape
    ensures Wellformed(DeliverStep(st, i, res), shape)
  {
    var w := st.waiting[i];
    assert w in st.waiting;
    var rest := st.(waiting := st.waiting[..i] + st.waiting[i + 1..]);
    assert forall v :: v in rest.waiting ==> v in st.waiting;
    SettleWellformed(rest, shape, w.key, w.position, w.done, res);
  }

  lemma RemoveStepWellformed(st: State, shape: seq<int>, position: seq<int>, done: Callback)
    requires Wellformed(st, shape)
    ensures Wellformed(RemoveStep(st, position, done).0, shape)
  {
  }

  lemma {:induction false} FetchAllWellformed(getter: Getter, shape: seq<int>, st: State, ps: seq<seq<int>>)
    requires Wellformed(st, shape) && Honest(getter, shape)
    ensures Wellformed(FetchAll(getter, shape, st, ps).0, shape)
    decreases |ps|
  {
    if |ps| > 0 {
      var prev := FetchAll(getter, shape, st, ps[..|ps| - 1]);
      FetchAllWellformed(getter, shape, st, ps[..|ps| - 1]);
      ChunkStepWellformed(getter, shape, prev.0, ps[|ps| - 1], Step);
    }
  }

  // ---------------------------------------------------------------------
  // Dispatching a list of coordinates

  /** One reply per coordinate; cached chunks stay as they were; a chunk
      that was not cached before is the getter's chunk for the coordinate
      its key spells, tagged with it. */
  lemma {:induction false} FetchAllIndex(getter: Getter, shape: seq<int>, st: State, ps: seq<seq<int>>)
    ensures |FetchAll(getter, shape, st, ps).1| == |ps|
    ensures Grown(getter, shape, st.index, FetchAll(getter, shape, st, ps).0.index, ps)
    decreases |ps|
  {
    if |ps| > 0 {
      var n := |ps|;
      FetchAllIndex(getter, shape, st, ps[..n - 1]);
      assert ps == ps[..n - 1] + [ps[n - 1]];
      FetchAllGrows(getter, shape, st, ps[..n - 1], ps[n - 1]);
    }
  }

  /** Dispatching one more coordinate keeps the index grown as above. */
  lemma FetchAllGrows(getter: Getter, shape: seq<int>, st: State, ps: seq<seq<int>>, p: seq<int>)
    requires Grown(getter, shape, st.index, FetchAll(getter, shape, st, ps).0.index, ps)
    ensures Grown(getter, shape, st.index, FetchAll(getter, shape, st, ps + [p]).0.index, ps + [p])
  {
    var prev := FetchAll(getter, shape, st, ps);
    assert (ps + [p])[..|ps|] == ps;
    var next := ChunkStep(getter, shape, prev.0, p, Step).state;
    assert FetchAll(getter, shape, st, ps + [p]).0 == next;
    ChunkStepIndex(getter, shape, prev.0, p, Step);
    GrownStep(getter, shape, st.index, prev.0.index, next.index, ps, p);
  }

  /** Every entry of `before` is still in `after`, unchanged, and every new
      entry is the getter's chunk for the coordinate its key spells, one of
      ps, tagged with it. */
  ghost predicate Grown(getter: Getter, shape: seq<int>, before: map<string, ChunkArray>,
                        after: map<string, ChunkArray>, ps: seq<seq<int>>)
  {
    && (forall k :: k in before ==> k in after && after[k] == before[k])
    && (forall k :: k in after && k !in before ==>
          && Unkey(k) in ps && Fresh(getter, shape, Unkey(k))
          && after[k] == ChunkArray(getter(shape, Unkey(k)).result.data, Unkey(k)))
  }

  lemma GrownStep(getter: Getter, shape: seq<int>, before: map<string, ChunkArray>, mid: map<string, ChunkArray>,
                  after: map<string, ChunkArray>, ps: seq<seq<int>>, p: seq<int>)
    requires Grown(getter, shape, before, mid, ps)
    requires || after == mid
             || (Key(p) !in mid && Fresh(getter, shape, p)
                 && after == mid[Key(p) := ChunkArray(getter(shape, p).result.data, p)])
    ensures Grown(getter, shape, before, after, ps + [p])
  {
    UnkeyKey(p);
    forall k | k in after && k !in before
      ensures Unkey(k) in ps + [p]
    {
      if k in mid {
        assert Unkey(k) in ps;
      }
    }
  }

  /** Every chunk reply is what the index holds for its coordinate. */
  ghost predicate Agrees(ps: seq<seq<int>>, rs: seq<Option<Reply>>, index: map<string, ChunkArray>)
  {
    && |rs| == |ps|
    && forall j :: 0 <= j < |ps| && rs[j].Some? && rs[j].value.GotChunk? ==>
         Key(ps[j]) in index && index[Key(ps[j])] == rs[j].value.chunk
  }

  /** A chunk reply is what the index holds for that coordinate once every
      coordinate has been dispatched. */
  lemma {:induction false} FetchAllChunks(getter: Getter, shape: seq<int>, st: State, ps: seq<seq<int>>)
    ensures Agrees(ps, FetchAll(getter, shape, st, ps).1, FetchAll(getter, shape, st, ps).0.index)
    decreases |ps|
  {
    if |ps| > 0 {
      var n := |ps|;
      var prev := FetchAll(getter, shape, st, ps[..n - 1]);
      FetchAllChunks(getter, shape, st, ps[..n - 1]);
      ChunkStepReply(getter, shape, prev.0, ps[n - 1], Step);
      ChunkStepIndex(getter, shape, prev.0, ps[n - 1], Step);
      var f := ChunkStep(getter, shape, prev.0, ps[n - 1], Step);
      assert ps == ps[..n - 1] + [ps[n - 1]];
      AgreesStep(ps[..n - 1], prev.1, prev.0.index, f.state.index, ps[n - 1], f.reply);
    }
  }

  lemma AgreesStep(ps: seq<seq<int>>, rs: seq<Option<Reply>>, index: map<string, ChunkArray>,
                   later: map<string, ChunkArray>, p: seq<int>, reply: Option<Reply>)
    requires Agrees(ps, rs, index)
    requires forall k :: k in index ==> k in later && later[k] == index[k]
    requires reply.Some? && reply.value.GotChunk? ==> Key(p) in later && later[Key(p)] == reply.value.chunk
    ensures Agrees(ps + [p], rs + [reply], later)
  {
    var ps1, rs1 := ps + [p], rs + [reply];
    assert forall j :: 0 <= j < |ps| ==> ps1[j] == ps[j] && rs1[j] == rs[j];
  }

  /** Dispatching never drops a cached key. */
  lemma {:induction false} FetchAllKeeps(getter: Getter, shape: seq<int>, st: State, ps: seq<seq<int>>)
    ensures forall k :: k in st.index ==> k in FetchAll(getter, shape, st, ps).0.index
    decreases |ps|
  {
    if |ps| > 0 {
      var n := |ps|;
      var prev := FetchAll(getter, shape, st, ps[..n - 1]);
      FetchAllKeeps(getter, shape, st, ps[..n - 1]);
      ChunkStepIndex(getter, shape, prev.0, ps[n - 1], Step);
    }
  }

  /** Every reply is a chunk or an error; an error reply is the getter's
      error for a coordinate that was not cached, and a missing reply is a
      getter that has not answered yet. */
  ghost predicate Explained(getter: Getter, shape: seq<int>, index: map<string, ChunkArray>,
                            ps: seq<seq<int>>, rs: seq<Option<Reply>>)
  {
    && |rs| == |ps|
    && (forall j :: 0 <= j < |rs| && rs[j].Some? ==> rs[j].value.GotChunk? || rs[j].value.Failed?)
    && (forall j :: 0 <= j < |rs| && rs[j].Some? && rs[j].value.Failed? ==>
          Key(ps[j]) !in index && getter(shape, ps[j]) == Now(Err(rs[j].value.error)))
    && (forall j :: 0 <= j < |rs| && rs[j].None? ==> Key(ps[j]) !in index && getter(shape, ps[j]).Later?)
  }

  lemma {:induction false} FetchAllFailures(getter: Getter, shape: seq<int>, st: State, ps: seq<seq<int>>)
    ensures Explained(getter, shape, st.index, ps, FetchAll(getter, shape, st, ps).1)
    decreases |ps|
  {
    if |ps| > 0 {
      var n := |ps|;
      var prev := FetchAll(getter, shape, st, ps[..n - 1]);
      FetchAllFailures(getter, shape, st, ps[..n - 1]);
      FetchAllKeeps(getter, shape, st, ps[..n - 1]);
      assert ps == ps[..n - 1] + [ps[n - 1]];
      ExplainedChunk(getter, shape, st.index, prev.0, ps[..n - 1], prev.1, ps[n - 1]);
    }
  }

  lemma ExplainedChunk(getter: Getter, shape: seq<int>, index: map<string, ChunkArray>, prev: State,
                       ps: seq<seq<int>>, rs: seq<Option<Reply>>, p: seq<int>)
    requires Explained(getter, shape, index, ps, rs)
    requires forall k :: k in index ==> k in prev.index
    ensures Explained(getter, shape, index, ps + [p], rs + [ChunkStep(getter, shape, prev, p, Step).reply])
  {
    ChunkStepReply(getter, shape, prev, p, Step);
    ExplainedStep(getter, shape, index, prev.index, ps, rs, p, ChunkStep(getter, shape, prev, p, Step).reply);
  }

  lemma ExplainedStep(getter: Getter, shape: seq<int>, index: map<string, ChunkArray>, later: map<string, ChunkArray>,
                      ps: seq<seq<int>>, rs: seq<Option<Reply>>, p: seq<int>, reply: Option<Reply>)
    requires Explained(getter, shape, index, ps, rs)
    requires forall k :: k in index ==> k in later
    requires reply.Some? ==> reply.value.GotChunk? || reply.value.Failed?
    requires reply.Some? && reply.value.Failed? ==> Key(p) !in later && getter(shape, p) == Now(Err(reply.value.error))
    requires reply.None? ==> Key(p) !in later && getter(shape, p).Later?
    ensures Explained(getter, shape, index, ps + [p], rs + [reply])
  {
    var ps1, rs1 := ps + [p], rs + [reply];
    assert forall j :: 0 <= j < |ps| ==> ps1[j] == ps[j] && rs1[j] == rs[j];
  }

  /** `map-async`'s final result: every chunk's ndarray in order exactly when
      every coordinate replied with a chunk. */
  lemma {:induction false} GatherAll(rs: seq<Option<Reply>>)
    ensures Gather(rs).Gathered? <==> forall j :: 0 <= j < |rs| ==> rs[j].Some? && rs[j].value.GotChunk?
    ensures Gather(rs).Gathered? ==>
              |Gather(rs).arrays| == |rs| && forall j :: 0 <= j < |rs| ==> Gather(rs).arrays[j] == rs[j].value.chunk.data
    decreases |rs|
  {
    if |rs| > 0 {
      GatherAll(rs[1..]);
      assert forall j :: 1 <= j < |rs| ==> rs[1..][j - 1] == rs[j];
    }
  }

  /** `map-async` fails exactly when some coordinate failed, and it reports
      the first failure. */
  lemma {:induction false} GatherFirstFailure(rs: seq<Option<Reply>>)
    ensures Gather(rs).GatherFailed? <==> exists j :: 0 <= j < |rs| && rs[j].Some? && rs[j].value.Failed?
    ensures Gather(rs).GatherFailed? ==>
              exists j :: 0 <= j < |rs| && rs[j] == Some(Failed(Gather(rs).error))
                          && forall i :: 0 <= i < j ==> !(rs[i].Some? && rs[i].value.Failed?)
    decreases |rs|
  {
    if |rs| > 0 {
      GatherFirstFailure(rs[1..]);
      assert forall j :: 1 <= j < |rs| ==> rs[1..][j - 1] == rs[j];
      if !(rs[0].Some? && rs[0].value.Failed?) && Gather(rs[1..]).GatherFailed? {
        var j :| 0 <= j < |rs[1..]| && rs[1..][j] == Some(Failed(Gather(rs[1..]).error))
                 && forall i :: 0 <= i < j ==> !(rs[1..][i].Some? && rs[1..][i].value.Failed?);
        assert rs[j + 1] == Some(Failed(Gather(rs).error));
        forall i | 0 <= i < j + 1
          ensures !(rs[i].Some? && rs[i].value.Failed?)
        {
          if i > 0 {
            assert rs[1..][i - 1] == rs[i];
          }
        }
      }
      if exists j :: 0 <= j < |rs| && rs[j].Some? && rs[j].value.Failed? {
        var j :| 0 <= j < |rs| && rs[j].Some? && rs[j].value.Failed?;
        if j > 0 {
          assert rs[1..][j - 1].Some? && rs[1..][j - 1].value.Failed?;
        }
      }
    }
  }
}
