/** The mapped view and the copying reader return the same array. */
module ZeroCopySoundness {
  import opened Wrappers
  import opened RowMajor
  import opened ReadPlans
  import opened ZeroCopy
  import opened SlabGeometry
  import opened SlabVolume

  /** The elements a `numpy.memmap` of `count` elements at byte `start` exposes. */
  function MappedView(file: Bytes, start: nat, elemSize: nat, count: nat): (view: seq<Bytes>)
    requires start + count * elemSize <= |file|
  {
    seq(count, p requires 0 <= p < count =>
      WindowFits(p, count, elemSize);
      file[start + p * elemSize..start + p * elemSize + elemSize])
  }

  lemma WindowFits(p: nat, count: nat, elemSize: nat)
    requires p < count
    ensures p * elemSize + elemSize <= count * elemSize
  {
    Scale(p, count, elemSize);
  }

  // ----- where a payload starts -----

  lemma {:induction false} TotalRawSplits(chunks: seq<ChunkRecord>, k: nat)
    requires k <= |chunks|
    ensures TotalRaw(chunks[..k]) <= TotalRaw(chunks)
    decreases |chunks| - k
  {
    if k < |chunks| {
      TotalRawSplits(chunks, k + 1);
      assert chunks[..k + 1][..k] == chunks[..k];
    } else {
      assert chunks[..k] == chunks;
    }
  }

  /** Payload `k` lies between the start of the first payload and the end of the last. */
  lemma PayloadInside(chunks: seq<ChunkRecord>, k: nat)
    requires Adjacent(chunks) && k < |chunks|
    ensures chunks[0].payloadOffset <= chunks[k].payloadOffset
    ensures chunks[k].payloadOffset + chunks[k].rawLen <= chunks[0].payloadOffset + TotalRaw(chunks)
  {
    OffsetsTelescope(chunks, k);
    TotalRawSplits(chunks, k + 1);
    assert chunks[..k + 1][..k] == chunks[..k];
  }

  lemma {:induction false} FullSlabsBefore(plan: ReadPlan, elemSize: nat, k: nat)
    requires SlabPlan(plan, elemSize) && k < |plan.chunks|
    ensures RowCount(plan, k) == k * plan.chunkShape[0]
  {
    if k > 0 {
      SlabHasRows(plan, elemSize, k);
      SlabHasRows(plan, elemSize, k - 1);
      RowsTelescope(plan.datasetShape[0], plan.chunkShape[0], FirstSlab(plan), k);
      Distribute(FirstSlab(plan), k, plan.chunkShape[0]);
    }
  }

  /** In an exact plan payload `k` starts `k` full slabs after the first one. */
  lemma OffsetOfSlab(plan: ReadPlan, elemSize: nat, k: nat)
    requires SlabPlan(plan, elemSize) && ExactSlabs(plan) && Adjacent(plan.chunks) && k < |plan.chunks|
    ensures plan.chunks[k].payloadOffset == plan.chunks[0].payloadOffset
              + k * plan.chunkShape[0] * Product(plan.selShape[1..]) * elemSize
  {
    OffsetsTelescope(plan.chunks, k);
    RawIsVolume(plan, elemSize, k);
    forall j | 0 <= j < k
      ensures HoldsItsRows(plan, j)
    {
      SlabBoxVolume(plan, elemSize, j);
    }
    ExactVolume(plan, elemSize, k);
    FullSlabsBefore(plan, elemSize, k);
  }

  // ----- which record a cell is read from, and where -----

  /** The slab of a cell, counted from the first listed one. */
  function SlabNumber(plan: ReadPlan, cell: seq<nat>): int
    requires Shaped(plan) && 0 < |plan.chunkShape| == |cell|
  {
    TileIndex(plan.start[0] + cell[0], plan.chunkShape[0]) - FirstSlab(plan)
  }

  lemma CellRecord(plan: ReadPlan, elemSize: nat, cell: seq<nat>)
    requires SlabPlan(plan, elemSize) && InBox(plan.selShape, cell)
    ensures 0 <= SlabNumber(plan, cell) < |plan.chunks|
    ensures FindChunk(plan.chunks, TileOf(plan, cell)) == SlabNumber(plan, cell)
    ensures LocalIndex(plan, cell)[0] == TileOffset(plan.start[0] + cell[0], plan.chunkShape[0])
  {
    CellIsStored(plan, elemSize, cell);
    var k := FindChunk(plan.chunks, TileOf(plan, cell));
    SlabAt(plan, elemSize, k);
    TileOnAxis(plan, elemSize, cell, 0);
  }

  lemma RowInSlab(plan: ReadPlan, elemSize: nat, cell: seq<nat>)
    requires SlabPlan(plan, elemSize) && ExactSlabs(plan) && InBox(plan.selShape, cell)
    ensures cell[0] == SlabNumber(plan, cell) * plan.chunkShape[0] + LocalIndex(plan, cell)[0]
  {
    CellRecord(plan, elemSize, cell);
    TileSplit(plan.start[0] + cell[0], plan.chunkShape[0]);
    Distribute(SlabNumber(plan, cell), FirstSlab(plan), plan.chunkShape[0]);
  }

  lemma TrailingLocal(plan: ReadPlan, elemSize: nat, cell: seq<nat>)
    requires SlabPlan(plan, elemSize) && ExactSlabs(plan) && InBox(plan.selShape, cell)
    ensures LocalIndex(plan, cell)[1..] == cell[1..]
  {
    forall i | 1 <= i < |cell|
      ensures LocalIndex(plan, cell)[i] == cell[i]
    {
      TileOnAxis(plan, elemSize, cell, i);
    }
  }

  /** Full slabs before a cell plus its rank in its own slab make its rank in the selection. */
  lemma RankInSelection(plan: ReadPlan, elemSize: nat, cell: seq<nat>)
    requires SlabPlan(plan, elemSize) && ExactSlabs(plan) && InBox(plan.selShape, cell)
    ensures var k := SlabNumber(plan, cell);
            0 <= k < |plan.chunks|
            && |plan.chunks[k].extent| == |cell|
            && Rank(plan.selShape, cell)
            == k * plan.chunkShape[0] * Product(plan.selShape[1..])
               + Rank(plan.chunks[k].extent, LocalIndex(plan, cell))
  {
    CellRecord(plan, elemSize, cell);
    var k, p := SlabNumber(plan, cell), Product(plan.selShape[1..]);
    RowInSlab(plan, elemSize, cell);
    TrailingLocal(plan, elemSize, cell);
    assert plan.chunks[k].extent == SlabBox(plan, k);
    assert plan.chunks[k].extent[1..] == plan.selShape[1..];
    Distribute(k * plan.chunkShape[0], LocalIndex(plan, cell)[0], p);
  }

  lemma SliceOfSlice(file: Bytes, offset: nat, len: nat, at: nat, width: nat)
    requires offset + len <= |file| && at + width <= len
    ensures file[offset..offset + len][at..at + width] == file[offset + at..offset + at + width]
  {
    var payload := file[offset..offset + len];
    assert forall i :: 0 <= i < len ==> payload[i] == file[offset + i];
  }

  lemma RecordIsInFile(plan: ReadPlan, elemSize: nat, file: Bytes, decode: Decoder, k: nat)
    requires SlabPlan(plan, elemSize) && AllRaw(plan.chunks) && Adjacent(plan.chunks) && k < |plan.chunks|
    requires plan.chunks[0].payloadOffset + TotalRaw(plan.chunks) <= |file|
    ensures var c := plan.chunks[k];
            c.payloadOffset + c.rawLen <= |file|
            && Payload(file, c, decode) == Some(file[c.payloadOffset..c.payloadOffset + c.rawLen])
            && c.rawLen == Product(c.extent) * elemSize
  {
    PayloadInside(plan.chunks, k);
    assert DescribesTile(plan, plan.chunks[k], elemSize);
  }

  /** What the reader returns for a cell of record `k`, once the payload is known to be in the file. */
  lemma ReadFromRecord(plan: ReadPlan, elemSize: nat, file: Bytes, decode: Decoder, cell: seq<nat>)
    requires SlabPlan(plan, elemSize) && InBox(plan.selShape, cell)
    requires AllRaw(plan.chunks) && Adjacent(plan.chunks)
    requires plan.chunks[0].payloadOffset + TotalRaw(plan.chunks) <= |file|
    ensures var k := SlabNumber(plan, cell);
            0 <= k < |plan.chunks| && |plan.chunks[k].extent| == |cell|
    ensures var c := plan.chunks[SlabNumber(plan, cell)];
            var at := c.payloadOffset + Rank(c.extent, LocalIndex(plan, cell)) * elemSize;
            at + elemSize <= |file|
            && ReadElement(plan, elemSize, file, decode, cell) == Some(file[at..at + elemSize])
  {
    CellRecord(plan, elemSize, cell);
    CellIsStored(plan, elemSize, cell);
    var c := plan.chunks[SlabNumber(plan, cell)];
    var rank := Rank(c.extent, LocalIndex(plan, cell));
    RankBound(c.extent, LocalIndex(plan, cell));
    RecordIsInFile(plan, elemSize, file, decode, SlabNumber(plan, cell));
    Scale(rank, Product(c.extent), elemSize);
    SliceOfSlice(file, c.payloadOffset, c.rawLen, rank * elemSize, elemSize);
  }

  /**
   Zero-copy soundness, cell by cell: the bytes at the cell's row-major rank inside the span
   are the element that the tile-by-tile reader returns.
   */
  lemma SpanHoldsElement(plan: ReadPlan, elemSize: nat, file: Bytes, decode: Decoder, cell: seq<nat>)
    requires SlabPlan(plan, elemSize) && AllRaw(plan.chunks) && Adjacent(plan.chunks)
    requires TotalRaw(plan.chunks) == plan.logicalElementCount * elemSize
    requires plan.chunks[0].payloadOffset + TotalRaw(plan.chunks) <= |file|
    requires InBox(plan.selShape, cell)
    ensures var at := plan.chunks[0].payloadOffset + Rank(plan.selShape, cell) * elemSize;
            at + elemSize <= |file|
            && ReadElement(plan, elemSize, file, decode, cell) == Some(file[at..at + elemSize])
  {
    EqualVolume(plan, elemSize);
    RankInSelection(plan, elemSize, cell);
    ReadFromRecord(plan, elemSize, file, decode, cell);
    var k := SlabNumber(plan, cell);
    OffsetOfSlab(plan, elemSize, k);
    Distribute(k * plan.chunkShape[0] * Product(plan.selShape[1..]),
               Rank(plan.chunks[k].extent, LocalIndex(plan, cell)), elemSize);
  }

  /** The mapped view of an accepted span is the materialized array. */
  lemma ViewIsMaterialized(plan: ReadPlan, elemSize: nat, file: Bytes, decode: Decoder)
    requires SlabPlan(plan, elemSize) && AllRaw(plan.chunks) && Adjacent(plan.chunks)
    requires TotalRaw(plan.chunks) == plan.logicalElementCount * elemSize
    requires plan.chunks[0].payloadOffset + plan.logicalElementCount * elemSize <= |file|
    ensures Materialize(plan, elemSize, file, decode)
         == Some(MappedView(file, plan.chunks[0].payloadOffset, elemSize, plan.logicalElementCount))
  {
    var view := MappedView(file, plan.chunks[0].payloadOffset, elemSize, plan.logicalElementCount);
    forall p: nat | p < |view|
      ensures SameElement(plan, elemSize, file, decode, view, p)
    {
      SpanHoldsElement(plan, elemSize, file, decode, Unrank(plan.selShape, p));
    }
    MaterializeIs(plan, elemSize, file, decode, view);
  }

  ghost predicate SameElement(
    plan: ReadPlan, elemSize: nat, file: Bytes, decode: Decoder, view: seq<Bytes>, p: nat)
    requires Shaped(plan) && p < |view| == Product(plan.selShape)
  {
    ElementAt(plan, elemSize, file, decode, p) == Some(view[p])
  }

  lemma MaterializeIs(plan: ReadPlan, elemSize: nat, file: Bytes, decode: Decoder, view: seq<Bytes>)
    requires Shaped(plan) && |view| == Product(plan.selShape)
    requires forall p: nat :: p < |view| ==> SameElement(plan, elemSize, file, decode, view, p)
    ensures Materialize(plan, elemSize, file, decode) == Some(view)
  {
    forall p | 0 <= p < |view|
      ensures ElementAt(plan, elemSize, file, decode, p).Some?
    {
      assert SameElement(plan, elemSize, file, decode, view, p);
    }
    assert Materialize(plan, elemSize, file, decode).Some?;
    var dense := Materialize(plan, elemSize, file, decode).value;
    assert |dense| == |view|;
    forall p | 0 <= p < |view|
      ensures dense[p] == view[p]
    {
      assert SameElement(plan, elemSize, file, decode, view, p);
    }
    assert dense == view;
  }
}
