/** One total length, compared with the selection's size, decides the geometry of a slab plan. */
module SlabVolume {
  import opened RowMajor
  import opened ReadPlans
  import opened ZeroCopy
  import opened SlabGeometry

  /** Dataset rows inside slab `t`. */
  function RowsOf(plan: ReadPlan, t: nat): int
    requires Shaped(plan) && |plan.chunkShape| > 0
  {
    ClippedExtent(plan.datasetShape[0], plan.chunkShape[0], t)
  }

  /** Dataset rows inside the `m` slabs from `lo` on. */
  function RowsFrom(datasetLen: nat, c: nat, lo: nat, m: nat): int {
    if m == 0 then 0 else RowsFrom(datasetLen, c, lo, m - 1) + ClippedExtent(datasetLen, c, lo + m - 1)
  }

  lemma {:induction false} RowsTelescope(datasetLen: nat, c: nat, lo: nat, m: nat)
    requires m > 0 && (lo + m - 1) * c < datasetLen
    ensures RowsFrom(datasetLen, c, lo, m) == Min(datasetLen, (lo + m) * c) - lo * c
  {
    MulSucc(lo + m - 1, c);
    if m > 1 {
      MulSucc(lo + m - 2, c);
      RowsTelescope(datasetLen, c, lo, m - 1);
    } else {
      assert RowsFrom(datasetLen, c, lo, 0) == 0;
    }
  }

  function Volume(chunks: seq<ChunkRecord>): nat {
    if chunks == [] then 0 else Volume(chunks[..|chunks| - 1]) + Product(chunks[|chunks| - 1].extent)
  }

  lemma {:induction false} RawIsVolume(plan: ReadPlan, elemSize: nat, m: nat)
    requires WellFormed(plan, elemSize) && m <= |plan.chunks|
    ensures TotalRaw(plan.chunks[..m]) == Volume(plan.chunks[..m]) * elemSize
  {
    if m > 0 {
      RawIsVolume(plan, elemSize, m - 1);
      assert plan.chunks[..m][..m - 1] == plan.chunks[..m - 1];
      assert DescribesTile(plan, plan.chunks[m - 1], elemSize);
      Distribute(Volume(plan.chunks[..m - 1]), Product(plan.chunks[m - 1].extent), elemSize);
    }
  }

  lemma Distribute(a: int, b: int, c: int)
    ensures (a + b) * c == a * c + b * c
  {
  }

  /** The part of slab `FirstSlab + k` inside the dataset, with the trailing axes of the selection. */
  function SlabBox(plan: ReadPlan, k: nat): seq<int>
    requires Shaped(plan) && |plan.chunkShape| > 0
  {
    [RowsOf(plan, FirstSlab(plan) + k)] + plan.selShape[1..]
  }

  /** Every listed slab holds a row of the dataset. */
  lemma SlabHasRows(plan: ReadPlan, elemSize: nat, k: nat)
    requires SlabPlan(plan, elemSize) && k < |plan.chunks|
    ensures (FirstSlab(plan) + k) * plan.chunkShape[0] < plan.datasetShape[0]
    ensures RowsOf(plan, FirstSlab(plan) + k) > 0
  {
    SlabAt(plan, elemSize, k);
    var cell := ChunkCell(plan, elemSize, k);
    TileOnAxis(plan, elemSize, cell, 0);
    TileSplit(plan.start[0] + cell[0], plan.chunkShape[0]);
  }

  lemma SelectionInDataset(plan: ReadPlan, elemSize: nat, axis: nat)
    requires SlabPlan(plan, elemSize) && axis < |plan.selShape|
    ensures 0 < plan.selShape[axis] && plan.start[axis] + plan.selShape[axis] <= plan.datasetShape[axis]
  {
    NonEmpty(plan, elemSize);
    var cell := seq(|plan.selShape|, i requires 0 <= i < |plan.selShape| =>
      if i == axis then plan.selShape[axis] - 1 else 0);
    assert InBox(plan.selShape, cell);
    TileOnAxis(plan, elemSize, cell, axis);
  }

  lemma SlabCovered(plan: ReadPlan, elemSize: nat, k: nat)
    requires SlabPlan(plan, elemSize) && k < |plan.chunks|
    ensures RowsOf(plan, FirstSlab(plan) + k) > 0
    ensures |plan.chunks[k].extent| == |plan.selShape|
    ensures Covers(plan.chunks[k].extent, SlabBox(plan, k))
  {
    SlabHasRows(plan, elemSize, k);
    SlabAt(plan, elemSize, k);
    assert DescribesTile(plan, plan.chunks[k], elemSize);
    forall i | 1 <= i < |plan.selShape|
      ensures plan.selShape[i] <= plan.chunks[k].extent[i]
    {
      SelectionInDataset(plan, elemSize, i);
      assert plan.datasetShape[i] <= plan.chunkShape[i];
      assert plan.chunks[k].index[i] == 0;
    }
    assert plan.chunks[k].index[0] == FirstSlab(plan) + k;
  }

  lemma SlabVolumeAt(plan: ReadPlan, elemSize: nat, k: nat)
    requires SlabPlan(plan, elemSize) && k < |plan.chunks|
    ensures RowsOf(plan, FirstSlab(plan) + k) * Product(plan.selShape[1..]) <= Product(plan.chunks[k].extent)
  {
    SlabCovered(plan, elemSize, k);
    ProductMonotone(plan.chunks[k].extent, SlabBox(plan, k));
  }

  function RowCount(plan: ReadPlan, m: nat): int
    requires Shaped(plan) && |plan.chunkShape| > 0
  {
    RowsFrom(plan.datasetShape[0], plan.chunkShape[0], FirstSlab(plan), m)
  }

  ghost predicate HoldsItsRows(plan: ReadPlan, k: nat)
    requires Shaped(plan) && |plan.chunkShape| > 0 && k < |plan.chunks|
  {
    Product(plan.chunks[k].extent) == RowsOf(plan, FirstSlab(plan) + k) * Product(plan.selShape[1..])
  }

  /** The slabs hold at least their rows of the dataset; if no more, each holds exactly its rows. */
  lemma {:induction false} VolumeBound(plan: ReadPlan, elemSize: nat, m: nat)
    requires SlabPlan(plan, elemSize) && m <= |plan.chunks|
    ensures RowCount(plan, m) * Product(plan.selShape[1..]) <= Volume(plan.chunks[..m])
    ensures Volume(plan.chunks[..m]) == RowCount(plan, m) * Product(plan.selShape[1..]) ==>
      forall k :: 0 <= k < m ==> HoldsItsRows(plan, k)
  {
    if m > 0 {
      VolumeBound(plan, elemSize, m - 1);
      assert plan.chunks[..m][..m - 1] == plan.chunks[..m - 1];
      SlabVolumeAt(plan, elemSize, m - 1);
      Distribute(RowCount(plan, m - 1), RowsOf(plan, FirstSlab(plan) + m - 1), Product(plan.selShape[1..]));
    }
  }

  lemma {:induction false} ExactVolume(plan: ReadPlan, elemSize: nat, m: nat)
    requires SlabPlan(plan, elemSize) && m <= |plan.chunks|
    requires forall k :: 0 <= k < m ==> HoldsItsRows(plan, k)
    ensures Volume(plan.chunks[..m]) == RowCount(plan, m) * Product(plan.selShape[1..])
  {
    if m > 0 {
      ExactVolume(plan, elemSize, m - 1);
      assert plan.chunks[..m][..m - 1] == plan.chunks[..m - 1];
      assert HoldsItsRows(plan, m - 1);
      Distribute(RowCount(plan, m - 1), RowsOf(plan, FirstSlab(plan) + m - 1), Product(plan.selShape[1..]));
    }
  }

  /** One past the last dataset row of the listed slabs. */
  function SlabsEnd(plan: ReadPlan): int
    requires Shaped(plan) && |plan.chunkShape| > 0
  {
    Min(plan.datasetShape[0], (FirstSlab(plan) + |plan.chunks|) * plan.chunkShape[0])
  }

  /**
   The selection starts where the first listed slab starts, ends where the last one ends,
   spans every trailing axis, and no payload holds padding.
   */
  ghost predicate ExactSlabs(plan: ReadPlan) {
    && Shaped(plan) && |plan.chunkShape| > 0
    && plan.start[0] == FirstSlab(plan) * plan.chunkShape[0]
    && plan.start[0] + plan.selShape[0] == SlabsEnd(plan)
    && (forall i :: 1 <= i < |plan.selShape| ==> plan.start[i] == 0 && plan.selShape[i] == plan.datasetShape[i])
    && (forall k :: 0 <= k < |plan.chunks| ==> plan.chunks[k].extent == SlabBox(plan, k))
  }

  /** The selected rows lie inside the listed slabs. */
  lemma RowsInside(plan: ReadPlan, elemSize: nat)
    requires SlabPlan(plan, elemSize)
    ensures FirstSlab(plan) * plan.chunkShape[0] <= plan.start[0]
    ensures plan.start[0] + plan.selShape[0] <= SlabsEnd(plan)
    ensures RowCount(plan, |plan.chunks|) == SlabsEnd(plan) - FirstSlab(plan) * plan.chunkShape[0]
  {
    SlabCount(plan, elemSize);
    SlabHasRows(plan, elemSize, |plan.chunks| - 1);
    RowsTelescope(plan.datasetShape[0], plan.chunkShape[0], FirstSlab(plan), |plan.chunks|);
    TileSplit(plan.start[0], plan.chunkShape[0]);
    TileSplit(plan.start[0] + plan.selShape[0] - 1, plan.chunkShape[0]);
    MulSucc(LastSlab(plan), plan.chunkShape[0]);
    SelectionInDataset(plan, elemSize, 0);
  }

  lemma Factor(a: int, b: int, p: nat)
    requires a <= b && p > 0 && b * p <= a * p
    ensures a == b
  {
    if a < b {
      MulMonotone(a + 1, b, p);
    }
  }

  lemma TrailingPositive(plan: ReadPlan, elemSize: nat)
    requires SlabPlan(plan, elemSize)
    ensures Product(plan.selShape[1..]) > 0
    ensures Product(plan.selShape) == plan.selShape[0] * Product(plan.selShape[1..])
  {
    NonEmpty(plan, elemSize);
    ProductPositive(plan.selShape[1..]);
  }

  /** Equal volume leaves no slack: rows, trailing axes and stored extents are all exact. */
  lemma EqualVolumeIsExact(plan: ReadPlan, elemSize: nat)
    requires SlabPlan(plan, elemSize)
    requires Volume(plan.chunks) == Product(plan.selShape)
    ensures ExactSlabs(plan)
  {
    var m, p := |plan.chunks|, Product(plan.selShape[1..]);
    RowsInside(plan, elemSize);
    TrailingPositive(plan, elemSize);
    assert plan.chunks[..m] == plan.chunks;
    VolumeBound(plan, elemSize, m);
    Factor(plan.selShape[0], RowCount(plan, m), p);
    forall k | 0 <= k < m
      ensures plan.chunks[k].extent == SlabBox(plan, k)
    {
      SlabCovered(plan, elemSize, k);
      SlabBoxVolume(plan, elemSize, k);
      assert HoldsItsRows(plan, k);
      EqualVolumeBoxes(plan.chunks[k].extent, SlabBox(plan, k));
    }
    forall i | 1 <= i < |plan.selShape|
      ensures plan.start[i] == 0 && plan.selShape[i] == plan.datasetShape[i]
    {
      TrailingExact(plan, elemSize, i);
    }
  }

  lemma SlabBoxVolume(plan: ReadPlan, elemSize: nat, k: nat)
    requires SlabPlan(plan, elemSize) && k < |plan.chunks|
    ensures RowsOf(plan, FirstSlab(plan) + k) > 0
    ensures Product(SlabBox(plan, k)) == RowsOf(plan, FirstSlab(plan) + k) * Product(plan.selShape[1..]) > 0
  {
    SlabHasRows(plan, elemSize, k);
    TrailingPositive(plan, elemSize);
    assert SlabBox(plan, k)[1..] == plan.selShape[1..];
    MulMonotone(1, RowsOf(plan, FirstSlab(plan) + k), Product(plan.selShape[1..]));
  }

  lemma TrailingExact(plan: ReadPlan, elemSize: nat, i: nat)
    requires SlabPlan(plan, elemSize) && 1 <= i < |plan.selShape|
    requires plan.chunks[0].extent == SlabBox(plan, 0)
    ensures plan.start[i] == 0 && plan.selShape[i] == plan.datasetShape[i]
  {
    SlabAt(plan, elemSize, 0);
    assert DescribesTile(plan, plan.chunks[0], elemSize);
    SelectionInDataset(plan, elemSize, i);
    assert plan.chunks[0].index[i] == 0 && plan.datasetShape[i] <= plan.chunkShape[i];
    assert plan.chunks[0].extent[i] == plan.selShape[i];
  }

  lemma ExactHasEqualVolume(plan: ReadPlan, elemSize: nat)
    requires SlabPlan(plan, elemSize) && ExactSlabs(plan)
    ensures Volume(plan.chunks) == Product(plan.selShape)
  {
    var m := |plan.chunks|;
    RowsInside(plan, elemSize);
    TrailingPositive(plan, elemSize);
    assert plan.chunks[..m] == plan.chunks;
    forall k | 0 <= k < m
      ensures HoldsItsRows(plan, k)
    {
      SlabBoxVolume(plan, elemSize, k);
    }
    ExactVolume(plan, elemSize, m);
  }

  lemma Cancel(a: nat, b: nat, c: nat)
    requires c > 0
    ensures a * c == b * c <==> a == b
  {
    if a < b {
      MulMonotone(a + 1, b, c);
    } else if b < a {
      MulMonotone(b + 1, a, c);
    }
  }

  /**
   The detector never looks at the selection bounds, yet on slab plans its length test holds
   exactly when the selection is the listed slabs, whole and without padding.
   */
  lemma EqualVolume(plan: ReadPlan, elemSize: nat)
    requires SlabPlan(plan, elemSize)
    ensures TotalRaw(plan.chunks) == plan.logicalElementCount * elemSize <==> ExactSlabs(plan)
  {
    assert plan.chunks[..|plan.chunks|] == plan.chunks;
    RawIsVolume(plan, elemSize, |plan.chunks|);
    Cancel(Volume(plan.chunks), Product(plan.selShape), elemSize);
    if Volume(plan.chunks) == Product(plan.selShape) {
      EqualVolumeIsExact(plan, elemSize);
    } else if ExactSlabs(plan) {
      ExactHasEqualVolume(plan, elemSize);
    }
  }

  // ----- what ExactSlabs says about cells -----

  ghost predicate Selected(plan: ReadPlan, x: seq<nat>)
    requires Shaped(plan)
  {
    |x| == |plan.start| && forall i :: 0 <= i < |x| ==> plan.start[i] <= x[i] < plan.start[i] + plan.selShape[i]
  }

  ghost predicate TileContains(plan: ReadPlan, tile: seq<nat>, x: seq<nat>)
    requires Shaped(plan)
  {
    |tile| == |x| == |plan.chunkShape| && forall i :: 0 <= i < |x| ==> TileIndex(x[i], plan.chunkShape[i]) == tile[i]
  }

  ghost predicate InListedTile(plan: ReadPlan, x: seq<nat>)
    requires Shaped(plan)
  {
    exists k :: 0 <= k < |plan.chunks| && TileContains(plan, plan.chunks[k].index, x)
  }

  ghost predicate SelectedIffListed(plan: ReadPlan, x: seq<nat>)
    requires Shaped(plan)
  {
    Selected(plan, x) <==> InListedTile(plan, x)
  }

  /** A dataset cell is selected exactly when it lies in a listed tile: no tile is half selected. */
  ghost predicate SelectionIsListedTiles(plan: ReadPlan)
    requires Shaped(plan)
  {
    forall x {:trigger SelectedIffListed(plan, x)} | InBox(plan.datasetShape, x) :: SelectedIffListed(plan, x)
  }

  /** Every payload holds the dataset part of its tile and nothing else. */
  ghost predicate NoPadding(plan: ReadPlan, elemSize: nat)
    requires WellFormed(plan, elemSize)
  {
    forall k, i :: 0 <= k < |plan.chunks| && 0 <= i < |plan.chunks[k].extent| && DescribesTile(plan, plan.chunks[k], elemSize) ==>
      plan.chunks[k].extent[i] == ClippedExtent(plan.datasetShape[i], plan.chunkShape[i], plan.chunks[k].index[i])
  }

  lemma TileUnique(x: nat, c: nat, q: nat)
    requires c > 0 && q * c <= x < (q + 1) * c
    ensures TileIndex(x, c) == q
  {
    TileSplit(x, c);
    if TileIndex(x, c) < q {
      MulMonotone(TileIndex(x, c) + 1, q, c);
      MulSucc(TileIndex(x, c), c);
    } else if q < TileIndex(x, c) {
      MulMonotone(q + 1, TileIndex(x, c), c);
    }
  }

  lemma SelectedIsListed(plan: ReadPlan, elemSize: nat, x: seq<nat>)
    requires SlabPlan(plan, elemSize) && Selected(plan, x)
    ensures InListedTile(plan, x)
  {
    var cell := seq(|x|, i requires 0 <= i < |x| => x[i] - plan.start[i]);
    assert InBox(plan.selShape, cell);
    assert CellIsListed(plan, cell);
    var k :| 0 <= k < |plan.chunks| && plan.chunks[k].index == TileOf(plan, cell);
    forall i | 0 <= i < |x|
      ensures TileIndex(x[i], plan.chunkShape[i]) == plan.chunks[k].index[i]
    {
      TileOnAxis(plan, elemSize, cell, i);
    }
    assert TileContains(plan, plan.chunks[k].index, x);
  }

  lemma ListedIsSelected(plan: ReadPlan, elemSize: nat, x: seq<nat>)
    requires SlabPlan(plan, elemSize) && ExactSlabs(plan)
    requires InBox(plan.datasetShape, x) && InListedTile(plan, x)
    ensures Selected(plan, x)
  {
    var k :| 0 <= k < |plan.chunks| && TileContains(plan, plan.chunks[k].index, x);
    SlabAt(plan, elemSize, k);
    var c := plan.chunkShape[0];
    TileSplit(x[0], c);
    assert TileIndex(x[0], c) == FirstSlab(plan) + k;
    MulMonotone(FirstSlab(plan), FirstSlab(plan) + k, c);
    MulSucc(FirstSlab(plan) + k, c);
    MulMonotone(FirstSlab(plan) + k + 1, FirstSlab(plan) + |plan.chunks|, c);
  }

  lemma ExactHasNoPadding(plan: ReadPlan, elemSize: nat)
    requires SlabPlan(plan, elemSize) && ExactSlabs(plan)
    ensures NoPadding(plan, elemSize)
  {
    forall k, i | 0 <= k < |plan.chunks| && 0 <= i < |plan.chunks[k].extent| && DescribesTile(plan, plan.chunks[k], elemSize)
      ensures plan.chunks[k].extent[i]
           == ClippedExtent(plan.datasetShape[i], plan.chunkShape[i], plan.chunks[k].index[i])
    {
      SlabAt(plan, elemSize, k);
      if i > 0 {
        assert plan.datasetShape[i] <= plan.chunkShape[i];
      }
    }
  }

  /** Moving one coordinate of the selection's first cell inside the dataset. */
  lemma MovedCorner(plan: ReadPlan, elemSize: nat, axis: nat, at: nat, k: nat)
    requires SlabPlan(plan, elemSize) && SelectionIsListedTiles(plan)
    requires axis < |plan.start| && at < plan.datasetShape[axis] && k < |plan.chunks|
    requires axis == 0 ==> TileIndex(at, plan.chunkShape[0]) == FirstSlab(plan) + k
    requires axis > 0 ==> k == 0
    ensures plan.start[axis] <= at < plan.start[axis] + plan.selShape[axis]
  {
    var x := plan.start[axis := at];
    SlabAt(plan, elemSize, k);
    forall i | 0 <= i < |x|
      ensures x[i] < plan.datasetShape[i]
      ensures TileIndex(x[i], plan.chunkShape[i]) == plan.chunks[k].index[i]
    {
      SelectionInDataset(plan, elemSize, i);
      if i > 0 {
        assert plan.datasetShape[i] <= plan.chunkShape[i];
      }
    }
    assert TileContains(plan, plan.chunks[k].index, x);
    assert SelectedIffListed(plan, x);
    assert x[axis] == at;
  }

  lemma UnionFirstRow(plan: ReadPlan, elemSize: nat)
    requires SlabPlan(plan, elemSize) && SelectionIsListedTiles(plan)
    ensures plan.start[0] <= FirstSlab(plan) * plan.chunkShape[0]
  {
    var c := plan.chunkShape[0];
    SlabHasRows(plan, elemSize, 0);
    MulSucc(FirstSlab(plan), c);
    TileUnique(FirstSlab(plan) * c, c, FirstSlab(plan));
    MovedCorner(plan, elemSize, 0, FirstSlab(plan) * c, 0);
  }

  lemma UnionLastRow(plan: ReadPlan, elemSize: nat)
    requires SlabPlan(plan, elemSize) && SelectionIsListedTiles(plan)
    ensures SlabsEnd(plan) <= plan.start[0] + plan.selShape[0]
  {
    var c, last := plan.chunkShape[0], FirstSlab(plan) + |plan.chunks| - 1;
    SlabHasRows(plan, elemSize, |plan.chunks| - 1);
    MulSucc(last, c);
    TileUnique(SlabsEnd(plan) - 1, c, last);
    MovedCorner(plan, elemSize, 0, SlabsEnd(plan) - 1, |plan.chunks| - 1);
  }

  lemma UnionRows(plan: ReadPlan, elemSize: nat)
    requires SlabPlan(plan, elemSize) && SelectionIsListedTiles(plan)
    ensures plan.start[0] == FirstSlab(plan) * plan.chunkShape[0]
    ensures plan.start[0] + plan.selShape[0] == SlabsEnd(plan)
  {
    RowsInside(plan, elemSize);
    UnionFirstRow(plan, elemSize);
    UnionLastRow(plan, elemSize);
  }

  lemma UnionTrailing(plan: ReadPlan, elemSize: nat, axis: nat)
    requires SlabPlan(plan, elemSize) && SelectionIsListedTiles(plan) && 1 <= axis < |plan.selShape|
    ensures plan.start[axis] == 0 && plan.selShape[axis] == plan.datasetShape[axis]
  {
    SelectionInDataset(plan, elemSize, axis);
    MovedCorner(plan, elemSize, axis, 0, 0);
    MovedCorner(plan, elemSize, axis, plan.datasetShape[axis] - 1, 0);
  }

  lemma UnionIsExact(plan: ReadPlan, elemSize: nat)
    requires SlabPlan(plan, elemSize) && SelectionIsListedTiles(plan) && NoPadding(plan, elemSize)
    ensures ExactSlabs(plan)
  {
    UnionRows(plan, elemSize);
    forall i | 1 <= i < |plan.selShape|
      ensures plan.start[i] == 0 && plan.selShape[i] == plan.datasetShape[i]
    {
      UnionTrailing(plan, elemSize, i);
    }
    forall k | 0 <= k < |plan.chunks|
      ensures plan.chunks[k].extent == SlabBox(plan, k)
    {
      UnpaddedExtent(plan, elemSize, k);
    }
  }

  lemma UnpaddedExtent(plan: ReadPlan, elemSize: nat, k: nat)
    requires SlabPlan(plan, elemSize) && NoPadding(plan, elemSize) && k < |plan.chunks|
    requires forall i :: 1 <= i < |plan.selShape| ==> plan.selShape[i] == plan.datasetShape[i]
    ensures plan.chunks[k].extent == SlabBox(plan, k)
  {
    SlabAt(plan, elemSize, k);
    assert DescribesTile(plan, plan.chunks[k], elemSize);
    forall i | 1 <= i < |plan.selShape|
      ensures plan.chunks[k].extent[i] == plan.selShape[i]
    {
      assert plan.datasetShape[i] <= plan.chunkShape[i];
    }
  }

  /**
   Equal volume forces equality: on slab plans the length test holds exactly when the
   selection is the union of the listed tiles and the payloads hold no padding.
   */
  lemma EqualVolumeIffWholeTiles(plan: ReadPlan, elemSize: nat)
    requires SlabPlan(plan, elemSize)
    ensures TotalRaw(plan.chunks) == plan.logicalElementCount * elemSize
       <==> SelectionIsListedTiles(plan) && NoPadding(plan, elemSize)
  {
    EqualVolume(plan, elemSize);
    if ExactSlabs(plan) {
      forall x | InBox(plan.datasetShape, x)
        ensures SelectedIffListed(plan, x)
      {
        if InListedTile(plan, x) {
          ListedIsSelected(plan, elemSize, x);
        } else if Selected(plan, x) {
          SelectedIsListed(plan, elemSize, x);
        }
      }
      ExactHasNoPadding(plan, elemSize);
    } else if SelectionIsListedTiles(plan) && NoPadding(plan, elemSize) {
      UnionIsExact(plan, elemSize);
    }
  }
}
