# ndarray-continuous: the `Continuous` field in Dafny

`Continuous` is an unbounded N-dimensional field made of equally shaped
chunks (ndarrays). A chunk is addressed by an integer chunk coordinate. It is
fetched on demand through a pluggable getter and cached in a dictionary under
the coordinate's `'|'`-joined key. On top of that cache the field offers:

- `group(hi, lo)`: the chunks of a box of chunk coordinates composed into one ndarray;
- `range(hi, lo)`: a box of absolute cell coordinates, cut out of the composite of the chunks that cover it;
- `remove`: forgets a cached chunk.

This project models all of `index.js` and proves what its callers rely on. Two defects are modelled both as written and corrected (see "## Findings"). The rest of the model is built on the corrected versions: `remove` emits on the field, and `group` sorts by the strides of the box's own extents. So `group`, and `range` on top of it, are proved for that corrected order.

Modules:

- `Keys`: `chunkIndex`, meaning JavaScript's `String` of an integer and `join('|')`. A decoder is included, and the proof that keys are injective.
- `Strides`: the constructor's `offsets` and the sort key Σ a[i]·offsets[i]. It also holds the box extents lo − hi + 1 and the box's axis-0-fastest cell index. It proves that a sort key orders a box of chunk coordinates as that layout does on every box that is *narrow* with respect to the strides used. Narrowness is sufficient, not necessary. Keyed by the field's offsets, the narrow boxes are those at most one chunk extent wide on every axis but the last. Keyed by the strides of the box's own extents, every box is narrow.
- `NdArray`: the collaborators, specified at their interface only:
  - `zeros`;
  - ndarray's `.hi`/`.lo` crops;
  - `ndarray-group` (composite index i is chunk i / shape at local index i mod shape);
  - `cell-range`.
- `Ranges`: the per-axis floor/ceil chunk bounds and the crop offsets `tl`/`br` of `range`.
- `Grouping`: the comparator and an in-place sort of the coordinate array that stands for `Array.prototype.sort`. It proves that on a narrow box the sorted coordinates are exactly the box's cells in the order `ndarray-group` lays them out. With the box's own strides as the key, this holds on every box.
- `Cache`: the cache as a pure state machine over `(index, waiting callbacks, log)`. The getter is a function of the field's shape and the coordinate. It answers either before it returns (`Now`, with its answer) or in a later step (`Later`). A late answer is only known when it arrives, so it is supplied by the delivery step. Events and `done` calls go to an append-only log.
- `CacheLaws`: the laws of that machine:
  - hit;
  - miss that stores;
  - miss that fails;
  - miss that waits;
  - no single-flight;
  - remove;
  - dispatching a list of coordinates;
  - `map-async`'s gathering of replies.
- `Assembly`: what the composite of `group` and the crop of `range` show, with the chunks in `group`'s corrected order. Index i of the result holds the cached value at the corresponding absolute coordinate.
- `Continuous`: option handling and the `Field` class:
  - `index` and `waiting` fields, with a ghost `log`;
  - the constructor's offsets loop;
  - `group`'s box-shape loop and its sort, as written and corrected;
  - the methods `Chunk`, `Deliver`, `Remove`, `Group`, `Range`, each proved against the state machine and the assembly lemmas.
- `Scenarios`: the boxes of two `range` tests, test.js:140-149 and test.js:165-169, worked out, plus a one-row box that shows narrowness is not necessary.

## Model

| member | source | states |
|---|---|---|
| Continuous.Configure | index.js:17-25 | No options, or options without a shape, are refused with the "default shape" error. A bare array is the shape, with the prototype getter. A getter in the options replaces the prototype's. |
| Continuous.New | index.js:13-37 | Construction fails exactly when option handling does, with that error. Otherwise it yields a fresh field with that shape and getter, an empty index, nothing waiting and nothing logged. |
| Continuous.Field.constructor | index.js:27-36 | The loop with a running `size` leaves `offsets` equal to the strides of the shape. The index starts empty. |
| Continuous.StridesOf | index.js:30-36 | The loop with a running `size` computes exactly the strides of the extents it is given: offsets[i] is the product of the extents before i. |
| Strides.Offsets | index.js:30-36 | There is one offset per axis. |
| Strides.OffsetsRecurrence | index.js:30-36 | There is one offset per axis, with offsets[0] = 1 and offsets[i+1] = offsets[i] · shape[i]. |
| Strides.OffsetsAt | index.js:32-35 | offsets[i] is the product of the extents of the axes before i. |
| Keys.ParseIntText | index.js:40 | The decimal text of an integer, with a leading '-' for negatives, reads back as that integer. |
| Keys.SplitJoin | index.js:40 | Joining '|'-free parts with '|' and splitting on '|' gives the parts back. |
| Keys.UnkeyKey | index.js:39-41 | Decoding a coordinate's key gives the coordinate back, for every length including 0. |
| Keys.KeyInjective | index.js:39-41 | Two coordinates get the same key exactly when they are equal, so each coordinate has exactly one cache slot. |
| Cache.ChunkStep | index.js:43-63 | `chunk` only ever appends to the log, and strictly extends it. It never drops a cached key. Which entries it appends is stated by CacheLaws.ChunkHit and the CacheLaws.ChunkMiss lemmas. |
| Cache.Settle | index.js:51-60 | The getter callback leaves the waiting list alone. On an error the index is unchanged. On an ndarray the index gains exactly that chunk under the key, tagged with the coordinate. The log only grows, and its last entry is `done` with the chunk or the error. |
| CacheLaws.ChunkHit | index.js:44-49 | On a cached coordinate, `chunk` returns the stored chunk and passes it to `done`. The getter is not called, nothing is created, and the index and waiting callbacks are unchanged. |
| CacheLaws.ChunkMissStores | index.js:51-62 | On a miss answered at once with an ndarray, `chunk` stores it under the coordinate's key, tagged with the coordinate, and changes no other entry. It returns the chunk. The log gains, in order: the getter call, `created`, then `done` with the chunk. |
| CacheLaws.ChunkMissFails | index.js:51-52 | On a miss answered at once with an error, `chunk` passes the error to `done`, returns null, leaves the index unchanged and emits no event. |
| CacheLaws.ChunkMissWaits | index.js:51-62 | On a miss the getter answers later, `chunk` returns null and calls nobody back. Exactly one callback is left waiting, holding the key and coordinate. |
| CacheLaws.ChunkStepReply | index.js:43-63 | For any getter, a chunk reply is the chunk the index then holds for that coordinate. An error reply is the getter's immediate error for an uncached coordinate. No reply means the getter answers later. |
| CacheLaws.ChunkStepIndex | index.js:43-63 | `chunk` leaves the index alone, or adds the getter's chunk for the coordinate under its previously missing key. |
| CacheLaws.NoSingleFlight | index.js:44-62 | Two requests for the same coordinate before the getter answers call the getter twice. The coordinate stays uncached, and both callbacks wait, in request order. |
| CacheLaws.AnsweredInOrder | index.js:51-60 | For two arbitrary late ndarrays, arriving in request order, each creates its own chunk and reaches its own caller's `done`. Nothing is left waiting, and the index keeps the chunk of the second answer, the one delivered last. |
| CacheLaws.AnsweredReversed | index.js:51-60 | For two arbitrary late ndarrays arriving in reverse order, each still reaches its own caller's `done`, and the index keeps the chunk of the first request's answer, now the one delivered last. |
| CacheLaws.DeliverLast | index.js:51-60 | Delivering to the last waiting callback runs the getter callback on the state with that callback gone. |
| CacheLaws.DeliverBeforeLast | index.js:51-60 | Delivering to the last but one waiting callback runs it and leaves the last one waiting. |
| Cache.DeliverStep | index.js:51-60 | A late answer removes exactly the i-th waiting callback, only appends to the log, and ends with a call of that callback's `done`. |
| Continuous.Field.Chunk | index.js:43-63 | Implements the `chunk` transition of the state machine: the new index, waiting callbacks and log, the return value and the immediate reply. It keeps the field's invariant. |
| Continuous.Field.Complete | index.js:51-60 | The getter callback. On an error it only calls `done(err)`. Otherwise it stores and tags the chunk, emits `created`, and then calls `done` with the chunk. |
| Continuous.Field.Deliver | index.js:51-60 | A late getter answer runs the callback of that waiting request: it is the delivery transition, and `done` receives the chunk made of that answer or its error. It requires a late ndarray to have the field's shape, and keeps the field's invariant. |
| CacheLaws.SettleWellformed | index.js:54-55 | Storing a chunk of the field's shape under its coordinate's key keeps every entry keyed by its own position tag. |
| CacheLaws.ChunkStepWellformed | index.js:43-63 | `chunk` keeps the invariant that every cached chunk has the field's shape and is keyed by its position tag. |
| CacheLaws.DeliverStepWellformed | index.js:51-60 | A late getter answer keeps that invariant. |
| CacheLaws.RemoveStepWellformed | index.js:136-145 | `remove` keeps that invariant. |
| Cache.RemoveStep | index.js:136-145 | The corrected `remove` returns true exactly when the coordinate was cached. Afterwards exactly that key is gone, and the waiting callbacks are untouched. |
| Cache.RemoveAsWrittenStep | index.js:136-145 | `remove` as written throws exactly when the coordinate is cached. It never changes the index or the waiting callbacks. |
| Continuous.Field.Remove | index.js:136-145 | The corrected `remove`. On an absent coordinate it calls `done` with no value and returns false. On a present one it emits `removed` with the chunk, deletes exactly that entry and returns true. |
| CacheLaws.RemoveForgets | index.js:136-144 | After removing a cached chunk, only its key is gone and `removed` was logged with it. The next request for the coordinate calls the getter again. |
| CacheLaws.RemoveAbsent | index.js:137-141 | Removing an absent coordinate returns false, calls `done` with no value, and changes neither the index nor the waiting callbacks. |
| Continuous.Field.RemoveAsWritten | index.js:136-145 | `remove` as written. On a present coordinate it throws (a ReferenceError under Node) and leaves the state untouched. On an absent one it behaves as intended. |
| CacheLaws.RemoveAsWrittenKeeps | index.js:141-144 | As written, removing a cached chunk throws and leaves the field as it was. The next request is a cache hit, so the chunk is never forgotten. |
| Grouping.Compare | index.js:75-85 | The comparator's loop returns the difference of the two coordinates' sort keys Σ a[i]·offsets[i]. |
| Grouping.SortByKey | index.js:75-85 | Sorting the coordinate array in place leaves it ascending by sort key and a permutation of its previous contents. |
| Grouping.Insert | index.js:75-85 | One insertion pass extends the sorted prefix by one element and keeps the array a permutation. |
| Grouping.Sink | index.js:75-85 | Swapping an element with a larger-keyed predecessor moves it one step toward its place and keeps the array a permutation. |
| Strides.NarrowKeyOrder | index.js:75-85 | On a box narrow for the strides used, the sort key orders any two chunk coordinates of the box exactly as their box indices do (axis 0 fastest). Two coordinates have equal keys exactly when they are equal. |
| Grouping.IndexFollowsKey | index.js:75-85 | On a narrow box, of two different cells the one with the smaller or equal key has the strictly smaller box index. |
| Grouping.SortedIndicesCount | index.js:75-85 | On a narrow box, the box indices of the key-sorted cells are 0, 1, 2, … in order. |
| Grouping.RearrangedCells | index.js:66-75 | Any rearrangement of the box's cells has one entry per cell, lies in the box and repeats nothing. |
| Grouping.SortedIsLayout | index.js:66-85 | On a box narrow for the strides used, every key-sorted rearrangement of the cells is exactly the box's own cell order. |
| Grouping.BoxOrderIsLayout | index.js:75-97 | Keyed by the strides of the box's own extents, every key-sorted rearrangement of a box's cells is exactly the box's cell order, on every box. |
| NdArray.Cells | index.js:66 | The box's cells number the product of the extents, and cell k is hi plus the k-th coordinate of the box, axis 0 fastest. |
| NdArray.CellsSpec | index.js:66 | The enumerated cells number the product of the extents. Each lies in the box, cell k is at box index k, and none repeats. |
| Continuous.BoxShape | index.js:93-97 | The loop computes the box's extents lo[i] − hi[i] + 1. On an ordered box they are positive and their product is the number of cells. |
| Continuous.Field.EnumerateAsWritten | index.js:66-85 | As written: the positions list is a permutation of the box's cells, sorted by the key over the field's offsets, one entry per axis. On a narrow box it is the box's own order. |
| Continuous.Enumerate | index.js:66-97 | Corrected: sorting the box's cells by the key over the strides of the box's own extents yields exactly the box's cell order, on every box. It also returns those extents. |
| Continuous.Field.Dispatch | index.js:89-91 | Calling `chunk(position, next)` for each coordinate in order has the state effect of the dispatch transition. It collects each item's immediate reply. |
| Cache.FetchAll | index.js:89-91 | Dispatch gives one reply per coordinate and only appends to the log. |
| CacheLaws.FetchAllIndex | index.js:89-91 | Dispatch gives one reply per coordinate. Cached chunks stay unchanged. Every new entry is the getter's chunk for a dispatched coordinate, tagged with it. |
| CacheLaws.FetchAllChunks | index.js:89-91 | After dispatch, every chunk reply is what the index holds for that coordinate. |
| CacheLaws.FetchAllGrows | index.js:89-91 | Dispatching one more coordinate keeps every cached chunk and adds only the getter's chunks for dispatched coordinates. |
| CacheLaws.FetchAllKeeps | index.js:89-91 | Dispatch never drops a cached key. |
| CacheLaws.FetchAllFailures | index.js:89-92 | Every dispatch reply is a chunk or an error. An error is the getter's error for a coordinate that was not cached. A missing reply is a getter that has not answered. |
| CacheLaws.FetchAllWellformed | index.js:89-91 | Dispatch keeps the field's invariant. |
| Cache.Gather | index.js:89-92 | A complete gather has one ndarray per reply. A failed gather reports the error of one of the replies. |
| CacheLaws.GatherAll | index.js:89-93 | The gathered result is complete exactly when every item replied with a chunk. It then lists the chunks' ndarrays in dispatch order. |
| CacheLaws.GatherFirstFailure | index.js:91-92 | Gathering fails exactly when some item failed. The error it reports is that of the first failing item, in dispatch order. |
| Continuous.Field.Fetch | index.js:66-97 | Enumerate and sort the box with the corrected key, dispatch every coordinate, and gather the replies. The state afterwards is the dispatch transition on the box's cells in layout order. It also returns the box's extents. |
| Continuous.Field.Report | index.js:100 | Calling a `done` callback appends that call to the log and changes nothing else. |
| Continuous.Field.Group | index.js:65-104 | With the corrected order: the state is the dispatch of the box's cells, and `done`'s reply (composite, first error, or nothing yet) is returned and logged. The composite has the box's extents times the chunk shape, and on every box composite index i is the cached value at absolute coordinate hi·shape + i. |
| Assembly.GatheredShapes | index.js:89-99 | In any order, a complete gather holds one ndarray of the chunk shape per coordinate. |
| Assembly.GatheredFills | index.js:89-99 | A complete gather of replies that agree with the index lists the cached ndarrays in dispatch order. |
| NdArray.Compose | index.js:99 | The composite's shape is the box's extents times the chunk shape. |
| NdArray.ComposeAt | index.js:99 | Composite index i is chunk i / shape of the box, at local index i mod shape. |
| Assembly.CompositeAt | index.js:99 | When the chunk list is the box's cells in order, composite index i is the cached value at absolute coordinate hi·shape + i. |
| Assembly.ComposeShows | index.js:99 | Composing the cached ndarrays of a box's cells in box order has shape extents·shape and shows the field from hi·shape. |
| Assembly.GroupArrays | index.js:89-99 | When the box's cells are gathered in box order, the arrays are the cached ndarrays, one per cell, of the chunk shape. |
| Assembly.GroupValues | index.js:89-101 | When `group` gathers the box's cells in box order, the composite shows the field's cached values from hi·shape. |
| Assembly.GroupComposite | index.js:89-101 | In whatever order the sort left the coordinates, the composite has the right shape. When that order is the box's own, it shows the field's values. |
| Ranges.FloorDiv | index.js:117 | `Math.floor(a / s)` is the q with q·s ≤ a < (q+1)·s. |
| Ranges.CeilDiv | index.js:118 | `Math.ceil(a / s)` is the q with (q−1)·s < a ≤ q·s. |
| Ranges.CeilReachesPast | index.js:118 | The upper chunk bound is lo / s when s divides lo, and one more otherwise. |
| Ranges.PlanAxis | index.js:116-122 | Per axis, the chunk span covers the request, the crop starts inside the first chunk, and it keeps exactly lo − hi + 1 cells. |
| Ranges.PlanAxisCovers | index.js:116-122 | Per axis, the chunk span covers the request (hiChunk·s ≤ hi and lo < (loChunk+1)·s). The crop starts inside the first chunk (0 ≤ tl < s), keeps exactly lo − hi + 1 cells, ends inside the span, and composite index tl maps to hi. This holds for negative coordinates too. |
| Ranges.ChunkBox | index.js:116-118 | The chunk box is the per-axis floor/ceil bounds, and its lower corner is below its upper one. |
| Ranges.PlansOrdered | index.js:116-118 | hiChunk ≤ loChunk on every axis. |
| Continuous.Field.Plan | index.js:116-122 | The loop computes the chunk box and crop offsets of every axis, and they satisfy the per-axis coverage facts. |
| Assembly.CropBounds | index.js:120-121 | The crop offsets lie inside the composite of the chunk box and shift back to the requested coordinates. |
| Assembly.CropAt | index.js:128-129 | Cutting the composite at br and then at tl gives shape lo − hi + 1. Index j of the result is composite index tl + j, which is absolute coordinate hi + j. |
| Assembly.CroppedShape | index.js:128-129 | Whatever the composite holds, the crop has the requested extents. |
| Assembly.CropShows | index.js:128-130 | Cropping a composite that shows the field from its chunk box's corner yields a view that shows the field from hi. |
| Assembly.RangeValues | index.js:106-131 | When the chunk box's cells are gathered in box order, the range result has shape lo − hi + 1 and shows the cached values from hi. |
| NdArray.Hi | index.js:128 | `.hi(b…)` sets the shape to b on every non-negative argument and keeps every cell's index. |
| NdArray.Lo | index.js:129 | `.lo(t…)` shrinks the shape by t, and index j of the result is index t + j of the input. |
| Continuous.Field.Cut | index.js:126-131 | The callback `range` hands to `group`: an error is passed on, and a composite is cropped and the crop passed on. The crop has the requested extents and shows the field from hi. |
| Continuous.Field.Range | index.js:106-134 | Over `group`'s corrected order (Findings, index.js:75-85): the state is the dispatch of the chunk box's cells. The log gains `group`'s callback and then `done`, with the crop or the first error, or nothing yet. The result has shape lo − hi + 1, and on every box its index j is the cached value at hi + j. |
| Continuous.ZerosGetter | index.js:147-149 | The prototype getter is honest for every shape: whatever it answers at once is an ndarray of the field's shape. |
| Continuous.ZerosGetterFills | index.js:147-149 | The prototype getter answers at once with an all-zero ndarray of the field's shape, so it is honest. |
| Scenarios.SmallRangeIsNarrow | test.js:140-149 | For range([-1,-1],[1,1]) with chunk shape [5,5], the chunk box is [-1,-1]..[1,1], the crop is [4,4]..[7,7], the shape is [3,3], and the box is narrow. |
| Scenarios.WideRangeBox | test.js:165-169 | For range([-21,-23],[26,28]), the shape is [48,52] and the chunk box is [-5,-5]..[6,6], twelve chunks wide: not narrow. |
| Scenarios.WideBoxKeysCollide | index.js:75-85 | In that box, the different cells [0,0] and [5,-1] both get sort key 0, while their box indices are 65 and 58. |
| Scenarios.WideBoxLayout | index.js:66 | That box has 144 cells. Its layout puts [6,-5] at index 11, right before [-5,-4]. |
| Scenarios.WideBoxKeys | index.js:75-85 | Keyed by the field's offsets [1,5], [6,-5] gets −19 and [-5,-4] gets −25. Keyed by the box's strides [1,12], they get −54 and −53. |
| Scenarios.WideBoxMisordered | index.js:75-85 | As written, no arrangement of that box sorted by the field's offsets is the box's layout, so some chunk lands where another belongs. The box's own strides order the two cells as the layout does. |
| Scenarios.WideRowFollowsLayout | index.js:75-85 | Narrowness is sufficient, not necessary: the one-row box [0,0]..[5,0] is wider than the chunk extent 5 on axis 0, yet its layout is sorted by the field's offsets [1,5]. |
| Scenarios.RowCellKeys | index.js:75-85 | A cell [x,0] has sort key x under [1,5] and box index x under the strides [1,6] of that row. |

## Left out

- EventEmitter, `inherits` and listener dispatch (index.js:1, 3, 12, 15): events are entries of a ghost log; listeners are not modelled.
- `map-async` scheduling: items are dispatched in order and their immediate replies gathered. A getter answering after `group` has returned is a separate `Deliver` step. It calls the item's `next`, but the model does not then re-run `map-async`'s final callback, so a `group` that completes late is not modelled.
- Getters that call back more than once, or call back re-entrantly into the field, are not modelled: each request's callback fires once, now or later.
- `cell-range`: its enumeration order is not modelled. The sort starts from the box's cells axis-0 fastest. With the corrected key, any sorted arrangement of the cells is the layout (Grouping.BoxOrderIsLayout), so the starting order does not matter.
- `map-async` error timing: it hands the first error to its final callback as soon as that error arrives. The model dispatches every item first and then reports the first error in dispatch order, so the log records that failure after every item's request.
- `ndarray-group`, `zeros` and ndarray's `.hi`/`.lo`: specified as values (shape plus the value at each index). Storage, strides and zero-copy sharing are not modelled.
- Chunk aliasing: chunks are values, so changing a cached chunk through a reference the caller holds (test.js:102-128) is not modelled.
- Grouping.SortByKey: an insertion sort stands for the engine's `Array.prototype.sort`. Only "ascending by key, same elements" is promised; stability is not modelled.
- Continuous.Field.Deliver: it requires a late ndarray to have the field's shape, for the same reason as Continuous.New below. The source stores and passes on an answer of any shape.
- Continuous.New: it requires an honest getter (one that hands out ndarrays of the field's shape). The source does not check this, and the cache invariant needs it.
- Continuous.Field.Group, Continuous.Field.Range and Continuous.Field.Plan require every chunk extent to be positive and hi ≤ lo on every axis. The source checks neither. `range` and `Plan` divide by the chunk extents; with a zero extent the JavaScript divisions produce non-integers. `group` divides nothing, but the field's values that its composite is proved to show are addressed through `Cache.Value`, which divides by the extents. `cell-range`'s behaviour on an inverted box is not part of this model.
- The getter is modelled as a function of the field's shape and the coordinate. A coordinate therefore always gets the same immediate answer, or is always answered late. A getter whose answers change between calls cannot be expressed, for example one that fails and then succeeds on a retry, or answers late once and at once the next time. Only late answers are free, since they are supplied at delivery.
- `String(n)` switches to exponent notation for magnitudes of 10^21 and above. Keys are modelled with plain decimal digits, so coordinates that large are not modelled.
- JavaScript number semantics (floating-point coercion in `Math.floor`/`Math.ceil`, integers beyond 2^53): coordinates are unbounded integers.
- The caller mutating its position array after `chunk` returns: the model tags a chunk with a copy, as the source does, but does not model the aliasing that the copy guards against.
- `field.get`/`field.set`, used by test.js:72-100, are not defined in index.js, so there is nothing to model.
- eyeball.js is a browser demo and is not part of this model.

## Findings

| source | as written | input that shows it | evidently intended | confidence | as-written member | corrected member |
|---|---|---|---|---|---|---|
| index.js:143 | `remove` emits through `self`, which is bound in `chunk` and `group` but not in `remove`. Removing a cached chunk therefore throws (a ReferenceError under Node) before the event is emitted or the entry deleted, and `done` is never called. | `chunk([0, 0])` with the zero getter, then `remove([0, 0])` | emit `removed` on the field, delete the entry and return true | not executed | Continuous.Field.RemoveAsWritten, CacheLaws.RemoveAsWrittenKeeps | Continuous.Field.Remove, CacheLaws.RemoveForgets |
| index.js:75-85 | The comparator keys chunk coordinates by the field's offsets, the strides of the chunk shape. Those keys follow the box's axis-0-fastest layout that `ndarray-group` expects on every narrow box, but not on every box. On the chunk box of the input shown, no arrangement sorted by them is that layout, so chunks land in the wrong place in the composite. | `range([-21, -23], [26, 28])` with chunk shape [5, 5]: chunk box [-5,-5]..[6,6], where [6,-5] (key −19) must precede [-5,-4] (key −25) | key each coordinate by the strides of the box's own extents, so the sorted order is the layout on every box | not executed | Continuous.Field.EnumerateAsWritten, Scenarios.WideBoxMisordered | Continuous.Enumerate, Grouping.BoxOrderIsLayout |
