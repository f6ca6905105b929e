/**
 The geometry behind the zero-copy test. The detector compares one total length; these
 lemmas show what that comparison says about the selection box and the stored tiles.
 */
module SlabGeometry {
  import opened RowMajor
  import opened ReadPlans
  import opened ZeroCopy

  /** A well-formed plan of unit step whose chunks are slabs of the leading axis. */
  ghost predicate SlabPlan(plan: ReadPlan, elemSize: nat) {
    WellFormed(plan, elemSize) && UnitStep(plan) && LeadingAxisSlabs(plan)
  }

  /** First and last slab the selection touches. */
  function FirstSlab(plan: ReadPlan): nat
    requires Shaped(plan) && |plan.chunkShape| > 0
  {
    TileIndex(plan.start[0], plan.chunkShape[0])
  }

  function LastSlab(plan: ReadPlan): nat
    requires Shaped(plan) && |plan.chunkShape| > 0 && plan.selShape[0] > 0
  {
    TileIndex(plan.start[0] + plan.selShape[0] - 1, plan.chunkShape[0])
  }

  lemma TileOnAxis(plan: ReadPlan, elemSize: nat, cell: seq<nat>, axis: nat)
    requires SlabPlan(plan, elemSize) && InBox(plan.selShape, cell) && axis < |cell|
    ensures Coordinate(plan, cell, axis) == plan.start[axis] + cell[axis] < plan.datasetShape[axis]
    ensures TileOf(plan, cell)[axis] == TileIndex(plan.start[axis] + cell[axis], plan.chunkShape[axis])
    ensures axis > 0 ==> TileOf(plan, cell)[axis] == 0
                         && LocalIndex(plan, cell)[axis] == plan.start[axis] + cell[axis]
  {
    assert plan.step[axis] == 1 && CellInDataset(plan, cell);
    if axis > 0 {
      assert plan.datasetShape[axis] <= plan.chunkShape[axis];
    }
  }

  lemma RowRange(start: nat, len: nat, x: nat, c: nat)
    requires x < len && c > 0
    ensures TileIndex(start, c) <= TileIndex(start + x, c) <= TileIndex(start + len - 1, c)
  {
    TileMonotone(start, start + x, c);
    TileMonotone(start + x, start + len - 1, c);
  }

  /** The tile of a selected cell has index 0 on every trailing axis. */
  lemma CellInSlab(plan: ReadPlan, elemSize: nat, cell: seq<nat>)
    requires SlabPlan(plan, elemSize) && InBox(plan.selShape, cell)
    ensures forall axis :: 1 <= axis < |cell| ==> TileOf(plan, cell)[axis] == 0
  {
    forall axis | 1 <= axis < |cell|
      ensures TileOf(plan, cell)[axis] == 0
    {
      TileOnAxis(plan, elemSize, cell, axis);
    }
  }

  lemma ChunkCell(plan: ReadPlan, elemSize: nat, k: nat) returns (cell: seq<nat>)
    requires WellFormed(plan, elemSize) && k < |plan.chunks|
    ensures InBox(plan.selShape, cell) && TileOf(plan, cell) == plan.chunks[k].index
  {
    assert ChunkIsTouched(plan, k);
    cell :| InBox(plan.selShape, cell) && TileOf(plan, cell) == plan.chunks[k].index;
  }

  lemma NonEmpty(plan: ReadPlan, elemSize: nat)
    requires SlabPlan(plan, elemSize)
    ensures Product(plan.selShape) > 0
    ensures forall i :: 0 <= i < |plan.selShape| ==> plan.selShape[i] > 0
  {
    var cell := ChunkCell(plan, elemSize, 0);
    RankBound(plan.selShape, cell);
    ProductPositive(plan.selShape);
  }

  lemma {:induction false} LeadSteps(chunks: seq<ChunkRecord>, k: nat)
    requires ConsecutiveSlabs(chunks) && k < |chunks| && |chunks[0].index| > 0
    ensures |chunks[k].index| > 0 && chunks[k].index[0] == chunks[0].index[0] + k
  {
    if k > 0 {
      LeadSteps(chunks, k - 1);
      assert NextSlab(chunks[k - 1], chunks[k]);
    }
  }

  /** The cell of the selection at `x` on the leading axis and 0 elsewhere. */
  function EdgeCell(plan: ReadPlan, x: nat): seq<nat> {
    seq(|plan.selShape|, i => if i == 0 then x else 0)
  }

  /** The slab of every row of the selection is listed. */
  lemma RowIsListed(plan: ReadPlan, elemSize: nat, x: nat) returns (k: nat)
    requires SlabPlan(plan, elemSize) && x < plan.selShape[0]
    ensures k < |plan.chunks| && |plan.chunks[k].index| > 0
    ensures plan.chunks[k].index[0] == TileIndex(plan.start[0] + x, plan.chunkShape[0])
  {
    NonEmpty(plan, elemSize);
    var cell := EdgeCell(plan, x);
    assert InBox(plan.selShape, cell);
    TileOnAxis(plan, elemSize, cell, 0);
    assert CellIsListed(plan, cell);
    k :| 0 <= k < |plan.chunks| && plan.chunks[k].index == TileOf(plan, cell);
  }

  lemma SlabLead(plan: ReadPlan, elemSize: nat, k: nat)
    requires SlabPlan(plan, elemSize) && k < |plan.chunks|
    ensures |plan.chunks[0].index| == |plan.chunks[k].index| == |plan.chunkShape| > 0
    ensures plan.chunks[k].index[0] == plan.chunks[0].index[0] + k
  {
    assert SameTrailing(plan.chunks[k].index, plan.chunks[0].index);
    LeadSteps(plan.chunks, k);
  }

  lemma SlabRange(plan: ReadPlan, elemSize: nat, k: nat)
    requires SlabPlan(plan, elemSize) && k < |plan.chunks|
    ensures plan.selShape[0] > 0 && |plan.chunks[k].index| > 0
    ensures FirstSlab(plan) <= plan.chunks[k].index[0] <= LastSlab(plan)
  {
    NonEmpty(plan, elemSize);
    var cell := ChunkCell(plan, elemSize, k);
    TileOnAxis(plan, elemSize, cell, 0);
    RowRange(plan.start[0], plan.selShape[0], cell[0], plan.chunkShape[0]);
  }

  lemma SlabCount(plan: ReadPlan, elemSize: nat)
    requires SlabPlan(plan, elemSize)
    ensures plan.selShape[0] > 0 && |plan.chunks[0].index| > 0
    ensures plan.chunks[0].index[0] == FirstSlab(plan)
    ensures |plan.chunks| == LastSlab(plan) - FirstSlab(plan) + 1
  {
    NonEmpty(plan, elemSize);
    var a := RowIsListed(plan, elemSize, 0);
    SlabLead(plan, elemSize, a);
    SlabRange(plan, elemSize, 0);
    SlabCountUpper(plan, elemSize);
  }

  lemma SlabCountUpper(plan: ReadPlan, elemSize: nat)
    requires SlabPlan(plan, elemSize)
    ensures plan.selShape[0] > 0 && |plan.chunks[0].index| > 0
    ensures |plan.chunks| == LastSlab(plan) - plan.chunks[0].index[0] + 1
  {
    NonEmpty(plan, elemSize);
    var b := RowIsListed(plan, elemSize, plan.selShape[0] - 1);
    SlabLead(plan, elemSize, b);
    var last := |plan.chunks| - 1;
    SlabLead(plan, elemSize, last);
    SlabRange(plan, elemSize, last);
  }

  /** Record `k` is slab FirstSlab + k: the planner need not promise an order. */
  lemma SlabAt(plan: ReadPlan, elemSize: nat, k: nat)
    requires SlabPlan(plan, elemSize) && k < |plan.chunks|
    ensures plan.chunks[k].index == seq(|plan.chunkShape|, i => if i == 0 then FirstSlab(plan) + k else 0)
  {
    SlabCount(plan, elemSize);
    SlabLead(plan, elemSize, k);
    var cell := ChunkCell(plan, elemSize, k);
    CellInSlab(plan, elemSize, cell);
  }
}
