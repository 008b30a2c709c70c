/** Concrete boxes from the range tests of test.js, with chunk shape [5, 5].
    The small box is narrow, so even the comparator as written lays out its
    chunks; the large one is not: two of its chunk coordinates share a sort
    key, and the keys put chunks out of layout order. A one-row box shows
    that a box need not be narrow for the keys to follow its layout. */
module Scenarios {
  import opened Strides
  import opened NdArray
  import opened Ranges
  import opened Grouping

  /** test.js:140-149: range([-1, -1], [1, 1]) takes the chunks from [-1, -1]
      to [1, 1], a narrow box, keeps composite indices 4 to 6 on each axis
      and has shape [3, 3]. */
  lemma SmallRangeIsNarrow()
    ensures ChunkBox([-1, -1], [1, 1], [5, 5]) == Box([-1, -1], [1, 1])
    ensures TopLeft([-1, -1], [1, 1], [5, 5]) == [4, 4]
    ensures BottomRight([-1, -1], [1, 1], [5, 5]) == [7, 7]
    ensures Extents([-1, -1], [1, 1]) == [3, 3]
    ensures Narrow([-1, -1], [1, 1], [5, 5])
  {
    var p := PlanAxis(-1, 1, 5);
    assert p == AxisPlan(-1, 1, 4, 7);
    assert HiChunks([-1, -1], [1, 1], [5, 5]) == [-1, -1];
    assert LoChunks([-1, -1], [1, 1], [5, 5]) == [1, 1];
  }

  /** test.js:165-169: range([-21, -23], [26, 28]) has shape [48, 52] and
      takes the chunks from [-5, -5] to [6, 6]: twelve chunks along axis 0,
      more than the chunk extent 5, so the box is not narrow. */
  lemma WideRangeBox()
    ensures ChunkBox([-21, -23], [26, 28], [5, 5]) == Box([-5, -5], [6, 6])
    ensures TopLeft([-21, -23], [26, 28], [5, 5]) == [4, 2]
    ensures BottomRight([-21, -23], [26, 28], [5, 5]) == [52, 54]
    ensures Extents([-21, -23], [26, 28]) == [48, 52]
    ensures !Narrow([-5, -5], [6, 6], [5, 5])
  {
    assert PlanAxis(-21, 26, 5) == AxisPlan(-5, 6, 4, 52);
    assert PlanAxis(-23, 28, 5) == AxisPlan(-5, 6, 2, 54);
    assert HiChunks([-21, -23], [26, 28], [5, 5]) == [-5, -5];
    assert LoChunks([-21, -23], [26, 28], [5, 5]) == [6, 6];
    assert [6, 6][0] - [-5, -5][0] + 1 > [5, 5][0];
  }

  /** In that box, chunk coordinates [0, 0] and [5, -1] get the same sort
      key 0 (with offsets [1, 5]) although they are different cells at
      different box indices: the comparator cannot put both where the
      box's axis-0-fastest layout wants them. */
  lemma WideBoxKeysCollide()
    ensures Offsets([5, 5]) == [1, 5]
    ensures InBox([0, 0], [-5, -5], [6, 6]) && InBox([5, -1], [-5, -5], [6, 6])
    ensures LinearKey([0, 0], [1, 5]) == LinearKey([5, -1], [1, 5]) == 0
    ensures RectIndex(Sub([0, 0], [-5, -5]), Extents([-5, -5], [6, 6])) == 65
    ensures RectIndex(Sub([5, -1], [-5, -5]), Extents([-5, -5], [6, 6])) == 58
  {
    WideBoxKeys();
    assert Extents([-5, -5], [6, 6]) == [12, 12];
    assert Sub([0, 0], [-5, -5]) == [5, 5];
    assert Sub([5, -1], [-5, -5]) == [10, 4];
    assert Dot([0, 0], [1, 5]) == 0 by {
      assert [0, 0][..1] == [0] && [1, 5][..1] == [1];
    }
    assert Dot([5, -1], [1, 5]) == 0 by {
      assert [5, -1][..1] == [5] && [1, 5][..1] == [1];
      assert Dot([5], [1]) == 5;
    }
    assert Dot([5, 5], [1, 12]) == 65 by {
      assert [5, 5][..1] == [5] && [1, 12][..1] == [1];
      assert Dot([5], [1]) == 5;
    }
    assert Dot([10, 4], [1, 12]) == 58 by {
      assert [10, 4][..1] == [10] && [1, 12][..1] == [1];
      assert Dot([10], [1]) == 10;
    }
  }

  /** As written, the comparator of index.js:75-85 cannot lay out that box.
      The layout puts [6, -5] at index 11 right before [-5, -4], yet the
      field's offsets give them keys -19 and -25, so no arrangement sorted by
      those keys is the layout, and `ndarray-group` places some chunk where
      another belongs. Keyed by the strides of the box's extents [12, 12],
      the two come in layout order. */
  lemma WideBoxMisordered()
    ensures Dimensioned(Cells([-5, -5], [6, 6]), 2)
    ensures forall order :: Dimensioned(order, 2) && SortedByKey(order, Offsets([5, 5])) ==>
              order != Cells([-5, -5], [6, 6])
    ensures LinearKey([6, -5], Offsets([12, 12])) < LinearKey([-5, -4], Offsets([12, 12]))
  {
    var cs := Cells([-5, -5], [6, 6]);
    WideBoxLayout();
    WideBoxKeys();
    CellsSpec([-5, -5], [6, 6]);
    assert Dimensioned(cs, 2) by {
      assert forall k :: 0 <= k < |cs| ==> InBox(cs[k], [-5, -5], [6, 6]);
    }
    forall order | Dimensioned(order, 2) && SortedByKey(order, Offsets([5, 5]))
      ensures order != cs
    {
      if order == cs {
        assert false;
      }
    }
  }

  /** Entries 11 and 12 of the box's layout: the last cell of the first row
      and the first cell of the second. */
  lemma WideBoxLayout()
    ensures |Cells([-5, -5], [6, 6])| == 144
    ensures Cells([-5, -5], [6, 6])[11] == [6, -5] && Cells([-5, -5], [6, 6])[12] == [-5, -4]
  {
    var hi, lo := [-5, -5], [6, 6];
    assert Extents(hi, lo) == [12, 12];
    assert [12, 12][..1] == [12] && [12][..0] == [];
    assert Product([12]) == 12;
    assert Product([12, 12]) == 144;
    assert RectCoord(11, [12]) == [11];
    assert RectCoord(0, [12]) == [0];
    assert RectCoord(11, [12, 12]) == [11, 0];
    assert RectCoord(12, [12, 12]) == [0, 1];
  }

  /** Their keys under the chunk shape's offsets and under the box's own
      strides. */
  lemma WideBoxKeys()
    ensures Offsets([5, 5]) == [1, 5] && Offsets([12, 12]) == [1, 12]
    ensures LinearKey([6, -5], Offsets([5, 5])) == -19 && LinearKey([-5, -4], Offsets([5, 5])) == -25
    ensures LinearKey([6, -5], Offsets([12, 12])) == -54 && LinearKey([-5, -4], Offsets([12, 12])) == -53
  {
    assert Offsets([5]) == [1] && [5, 5][..1] == [5];
    assert Offsets([12]) == [1] && [12, 12][..1] == [12];
    assert [6, -5][..1] == [6] && [-5, -4][..1] == [-5];
    assert [1, 5][..1] == [1] && [1, 12][..1] == [1];
    assert Dot([6], [1]) == 6 && Dot([-5], [1]) == -5;
  }

  /** Narrowness is sufficient, not necessary: the one-row box [0,0]..[5,0]
      is six chunk coordinates long on axis 0, wider than the chunk extent 5,
      yet the field's offsets [1,5] key its cells 0 to 5 in layout order. */
  lemma WideRowFollowsLayout()
    ensures !Narrow([0, 0], [5, 0], [5, 5])
    ensures Dimensioned(Cells([0, 0], [5, 0]), 2)
    ensures SortedByKey(Cells([0, 0], [5, 0]), [1, 5])
  {
    var hi, lo := [0, 0], [5, 0];
    var cs := Cells(hi, lo);
    CellsSpec(hi, lo);
    assert Extents(hi, lo) == [6, 1];
    assert Offsets([6, 1]) == [1, 6] by {
      assert [6, 1][..1] == [6] && Offsets([6]) == [1];
    }
    forall k | 0 <= k < |cs|
      ensures |cs[k]| == 2 && LinearKey(cs[k], [1, 5]) == k
    {
      assert InBox(cs[k], hi, lo);
      assert Sub(cs[k], hi) == cs[k];
      RowCellKeys(cs[k]);
    }
  }

  /** A cell of that row: its key under [1,5] and its box index under the
      strides [1,6] are both its axis-0 coordinate. */
  lemma RowCellKeys(c: seq<int>)
    requires |c| == 2 && c[1] == 0
    ensures LinearKey(c, [1, 5]) == c[0] && RectIndex(c, [6, 1]) == c[0]
  {
    assert Offsets([6, 1]) == [1, 6] by {
      assert [6, 1][..1] == [6] && Offsets([6]) == [1];
    }
    assert c[..1] == [c[0]] && [1, 5][..1] == [1] && [1, 6][..1] == [1];
    assert Dot([c[0]], [1]) == c[0];
  }
}
