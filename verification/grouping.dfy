/** The ordering step of `group` (index.js:75-85): chunk coordinates are
    sorted by the linear key Σ a[i] * offsets[i]. With the field's offsets
    (strides of the chunk shape) the sorted list is the box in the
    axis-0-fastest layout `ndarray-group` expects on every narrow box, though
    not on every box; with the strides of the box's own extents it is that
    layout on every box. */
module Grouping {
  import opened Strides
  import opened NdArray

  predicate Dimensioned(ps: seq<seq<int>>, n: nat)
  {
    forall i :: 0 <= i < |ps| ==> |ps[i]| == n
  }

  /** Ascending by the linear key. */
  predicate SortedByKey(ps: seq<seq<int>>, offsets: seq<int>)
    requires Dimensioned(ps, |offsets|)
  {
    forall i, j :: 0 <= i < j < |ps| ==> LinearKey(ps[i], offsets) <= LinearKey(ps[j], offsets)
  }

  /** The comparator passed to `positions.sort`: accumulates both keys over
      the first `dims` axes and returns their difference. */
  method Compare(a: seq<int>, b: seq<int>, offsets: seq<int>) returns (diff: int)
    requires |a| == |b| == |offsets|
    ensures diff == LinearKey(a, offsets) - LinearKey(b, offsets)
  {
    var aidx, bidx := 0, 0;
    var i := 0;
    while i < |offsets|
      invariant 0 <= i <= |offsets|
      invariant aidx == Dot(a[..i], offsets[..i])
      invariant bidx == Dot(b[..i], offsets[..i])
    {
      assert a[..i + 1][..i] == a[..i] && b[..i + 1][..i] == b[..i];
      assert offsets[..i + 1][..i] == offsets[..i];
      aidx := aidx + a[i] * offsets[i];
      bidx := bidx + b[i] * offsets[i];
      i := i + 1;
    }
    assert a[..i] == a && b[..i] == b && offsets[..i] == offsets;
    diff := aidx - bidx;
  }

  /** `positions.sort(comparator)`, in place. The engine's algorithm is not
      part of the source; an insertion sort with the source's comparator
      stands for it, and only "ascending by key, same elements" is used. */
  method SortByKey(a: array<seq<int>>, offsets: seq<int>)
    requires Dimensioned(a[..], |offsets|)
    modifies a
    ensures Dimensioned(a[..], |offsets|)
    ensures SortedByKey(a[..], offsets)
    ensures multiset(a[..]) == multiset(old(a[..]))
  {
    var i := 0;
    while i < a.Length
      invariant 0 <= i <= a.Length
      invariant Dimensioned(a[..], |offsets|)
      invariant SortedByKey(a[..i], offsets)
      invariant multiset(a[..]) == multiset(old(a[..]))
    {
      Insert(a, i, offsets);
      i := i + 1;
    }
    assert a[..i] == a[..];
  }

  /** One pass of the insertion sort: a[i] sinks into the sorted a[..i]. */
  method Insert(a: array<seq<int>>, i: int, offsets: seq<int>)
    requires 0 <= i < a.Length
    requires Dimensioned(a[..], |offsets|) && SortedByKey(a[..i], offsets)
    modifies a
    ensures Dimensioned(a[..], |offsets|) && SortedByKey(a[..i + 1], offsets)
    ensures multiset(a[..]) == multiset(old(a[..]))
  {
    var j := i;
    HoleStart(a[..], i, offsets);
    while j > 0
      invariant 0 <= j <= i
      invariant Sinking(a[..], j, i, offsets)
      invariant multiset(a[..]) == multiset(old(a[..]))
    {
      var d := Compare(a[j - 1], a[j], offsets);
      if d <= 0 {
        break;
      }
      Sink(a, j, i, offsets);
      j := j - 1;
    }
    SinkDone(a[..], j, i, offsets);
  }

  /** Swaps a[j] with the larger a[j - 1] before it. */
  method Sink(a: array<seq<int>>, j: int, i: int, offsets: seq<int>)
    requires 0 < j && Sinking(a[..], j, i, offsets)
    requires LinearKey(a[j - 1], offsets) > LinearKey(a[j], offsets)
    modifies a
    ensures Sinking(a[..], j - 1, i, offsets)
    ensures multiset(a[..]) == multiset(old(a[..]))
  {
    ghost var s := a[..];
    a[j - 1], a[j] := a[j], a[j - 1];
    assert a[..] == s[j - 1 := s[j]][j := s[j - 1]];
    SinkStep(s, j, i, offsets);
  }

  /** The insertion sort's inner-loop invariant: the entry at j is no larger
      than the entries after it up to i, and the other entries up to i are in
      order. */
  ghost predicate Sinking(s: seq<seq<int>>, j: int, i: int, offsets: seq<int>)
  {
    && Dimensioned(s, |offsets|) && 0 <= j <= i < |s|
    && (forall k, m :: 0 <= k < m <= i && k != j && m != j ==>
          LinearKey(s[k], offsets) <= LinearKey(s[m], offsets))
    && (forall m :: j < m <= i ==> LinearKey(s[j], offsets) <= LinearKey(s[m], offsets))
  }

  lemma HoleStart(s: seq<seq<int>>, i: int, offsets: seq<int>)
    requires 0 <= i < |s| && Dimensioned(s, |offsets|) && SortedByKey(s[..i], offsets)
    ensures Sinking(s, i, i, offsets)
  {
    forall k, m | 0 <= k < m <= i && k != i && m != i
      ensures LinearKey(s[k], offsets) <= LinearKey(s[m], offsets)
    {
      assert s[k] == s[..i][k] && s[m] == s[..i][m];
    }
  }

  lemma SinkStep(s: seq<seq<int>>, j: int, i: int, offsets: seq<int>)
    requires Sinking(s, j, i, offsets) && j > 0
    requires LinearKey(s[j - 1], offsets) > LinearKey(s[j], offsets)
    ensures Sinking(s[j - 1 := s[j]][j := s[j - 1]], j - 1, i, offsets)
  {
  }

  lemma SinkDone(s: seq<seq<int>>, j: int, i: int, offsets: seq<int>)
    requires Sinking(s, j, i, offsets)
    requires j > 0 ==> LinearKey(s[j - 1], offsets) <= LinearKey(s[j], offsets)
    ensures SortedByKey(s[..i + 1], offsets)
  {
    forall k, m | 0 <= k < m <= i
      ensures LinearKey(s[k], offsets) <= LinearKey(s[m], offsets)
    {
      if m == j && k < j - 1 {
        assert LinearKey(s[k], offsets) <= LinearKey(s[j - 1], offsets);
      }
    }
  }

  lemma {:induction false} CountsOfDistinct<T>(s: seq<T>)
    requires Distinct(s)
    ensures forall x :: multiset(s)[x] <= 1
    decreases |s|
  {
    if |s| > 0 {
      var s', last := s[..|s| - 1], s[|s| - 1];
      assert s == s' + [last];
      CountsOfDistinct(s');
      assert last !in s';
    }
  }

  lemma DistinctOfCounts<T>(s: seq<T>)
    requires forall x :: multiset(s)[x] <= 1
    ensures Distinct(s)
  {
    forall i, j | 0 <= i < j < |s|
      ensures s[i] != s[j]
    {
      TwoOccurrences(s, i, j);
    }
  }

  lemma TwoOccurrences<T>(s: seq<T>, i: int, j: int)
    requires 0 <= i < j < |s|
    ensures s[i] == s[j] ==> multiset(s)[s[i]] >= 2
  {
    if s[i] == s[j] {
      assert s == s[..i] + [s[i]] + s[i + 1..j] + [s[j]] + s[j + 1..];
    }
  }

  /** A rearrangement of a list without repeats has no repeats. */
  lemma DistinctTransfer<T>(a: seq<T>, b: seq<T>)
    requires multiset(a) == multiset(b) && Distinct(a)
    ensures Distinct(b)
  {
    CountsOfDistinct(a);
    DistinctOfCounts(b);
  }

  lemma {:induction false} RunGap(r: seq<int>, k: int, m: int)
    requires forall t :: 0 <= t < |r| - 1 ==> r[t] < r[t + 1]
    requires 0 <= k <= m < |r|
    ensures r[m] - r[k] >= m - k
    decreases m - k
  {
    if k < m {
      RunGap(r, k + 1, m);
    }
  }

  /** A strictly increasing list of n indices below n lists 0, 1, ..., n-1. */
  lemma StrictRunIsIdentity(r: seq<int>)
    requires forall t :: 0 <= t < |r| - 1 ==> r[t] < r[t + 1]
    requires forall t :: 0 <= t < |r| ==> 0 <= r[t] < |r|
    ensures forall t :: 0 <= t < |r| ==> r[t] == t
  {
    forall t | 0 <= t < |r|
      ensures r[t] == t
    {
      RunGap(r, 0, t);
      RunGap(r, t, |r| - 1);
    }
  }

  /** A rearrangement of the cells of a box lists every cell of the box once. */
  lemma RearrangedCells(sorted: seq<seq<int>>, hi: seq<int>, lo: seq<int>)
    requires |hi| == |lo| && Ordered(hi, lo)
    requires multiset(sorted) == multiset(Cells(hi, lo))
    ensures |sorted| == Product(Extents(hi, lo))
    ensures forall k :: 0 <= k < |sorted| ==> InBox(sorted[k], hi, lo)
    ensures Distinct(sorted)
  {
    var cs := Cells(hi, lo);
    CellsSpec(hi, lo);
    assert |sorted| == |multiset(sorted)| == |cs|;
    forall k | 0 <= k < |sorted|
      ensures InBox(sorted[k], hi, lo)
    {
      assert sorted[k] in multiset(cs);
      var m :| 0 <= m < |cs| && cs[m] == sorted[k];
    }
    DistinctTransfer(cs, sorted);
  }

  /** Sorting the cells of a narrow box by the linear key yields the cells in
      the axis-0-fastest layout of the box, entry k being the cell of box
      index k: the order `ndarray-group` composes chunks in. */
  lemma SortedIsLayout(sorted: seq<seq<int>>, hi: seq<int>, lo: seq<int>, shape: seq<int>)
    requires |hi| == |lo| == |shape| && Positive(shape) && Ordered(hi, lo)
    requires Narrow(hi, lo, shape)
    requires Dimensioned(sorted, |shape|)
    requires multiset(sorted) == multiset(Cells(hi, lo))
    requires SortedByKey(sorted, Offsets(shape))
    ensures sorted == Cells(hi, lo)
  {
    var cs := Cells(hi, lo);
    CellsSpec(hi, lo);
    RearrangedCells(sorted, hi, lo);
    SortedIndicesCount(sorted, hi, lo, shape);
    forall k | 0 <= k < |sorted|
      ensures sorted[k] == cs[k]
    {
      SameIndexSameCell(sorted[k], cs[k], hi, lo);
    }
  }

  /** The corrected ordering: keyed by the strides of the box's own extents,
      every box is narrow, so any key-sorted arrangement of its cells is the
      box's layout. */
  lemma BoxOrderIsLayout(sorted: seq<seq<int>>, hi: seq<int>, lo: seq<int>)
    requires |hi| == |lo| && Ordered(hi, lo)
    requires Dimensioned(sorted, |hi|)
    requires multiset(sorted) == multiset(Cells(hi, lo))
    requires SortedByKey(sorted, Offsets(Extents(hi, lo)))
    ensures sorted == Cells(hi, lo)
  {
    var ext := Extents(hi, lo);
    assert Positive(ext) && Narrow(hi, lo, ext);
    SortedIsLayout(sorted, hi, lo, ext);
  }

  lemma SameIndexSameCell(p: seq<int>, q: seq<int>, hi: seq<int>, lo: seq<int>)
    requires |hi| == |lo| && Ordered(hi, lo)
    requires InBox(p, hi, lo) && InBox(q, hi, lo)
    requires RectIndex(Sub(p, hi), Extents(hi, lo)) == RectIndex(Sub(q, hi), Extents(hi, lo))
    ensures p == q
  {
    RectIndexOrder(p, q, hi, lo);
    ColexSignZero(Sub(p, q));
    assert forall d :: 0 <= d < |p| ==> p[d] - q[d] == Sub(p, q)[d];
  }

  /** The box indices of the sorted cells run 0, 1, 2, ... */
  lemma SortedIndicesCount(sorted: seq<seq<int>>, hi: seq<int>, lo: seq<int>, shape: seq<int>)
    requires |hi| == |lo| == |shape| && Positive(shape) && Ordered(hi, lo)
    requires Narrow(hi, lo, shape)
    requires |sorted| == Product(Extents(hi, lo)) && Distinct(sorted)
    requires forall k :: 0 <= k < |sorted| ==> InBox(sorted[k], hi, lo)
    requires Dimensioned(sorted, |shape|)
    requires SortedByKey(sorted, Offsets(shape))
    ensures forall k :: 0 <= k < |sorted| ==> RectIndex(Sub(sorted[k], hi), Extents(hi, lo)) == k
  {
    var ext := Extents(hi, lo);
    var r := BoxIndices(sorted, hi, lo);
    forall t | 0 <= t < |r| - 1
      ensures r[t] < r[t + 1]
    {
      assert sorted[t] != sorted[t + 1];
      assert LinearKey(sorted[t], Offsets(shape)) <= LinearKey(sorted[t + 1], Offsets(shape));
      IndexFollowsKey(sorted[t], sorted[t + 1], hi, lo, shape);
    }
    forall t | 0 <= t < |r|
      ensures 0 <= r[t] < |r|
    {
      RectIndexRange(Sub(sorted[t], hi), ext);
    }
    StrictRunIsIdentity(r);
  }

  /** On a narrow box, of two different cells the one with the smaller key
      has the smaller box index. */
  lemma IndexFollowsKey(p: seq<int>, q: seq<int>, hi: seq<int>, lo: seq<int>, shape: seq<int>)
    requires |hi| == |lo| == |shape| && Positive(shape) && Ordered(hi, lo)
    requires Narrow(hi, lo, shape)
    requires InBox(p, hi, lo) && InBox(q, hi, lo) && p != q
    requires LinearKey(p, Offsets(shape)) <= LinearKey(q, Offsets(shape))
    ensures RectIndex(Sub(p, hi), Extents(hi, lo)) < RectIndex(Sub(q, hi), Extents(hi, lo))
  {
    NarrowKeyOrder(p, q, hi, lo, shape);
  }

  function BoxIndices(ps: seq<seq<int>>, hi: seq<int>, lo: seq<int>): (r: seq<int>)
    requires |hi| == |lo| && Dimensioned(ps, |hi|)
    ensures |r| == |ps|
    ensures forall k :: 0 <= k < |ps| ==> r[k] == RectIndex(Sub(ps[k], hi), Extents(hi, lo))
  {
    seq(|ps|, k requires 0 <= k < |ps| => RectIndex(Sub(ps[k], hi), Extents(hi, lo)))
  }
}
