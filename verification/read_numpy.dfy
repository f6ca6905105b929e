/** The dense read of a local file: try the mapped view, otherwise copy. */
module ReadNumpy {
  import opened Wrappers
  import opened RowMajor
  import opened ReadPlans
  import opened ZeroCopy
  import opened SlabGeometry
  import opened SlabVolume
  import opened ZeroCopySoundness

  datatype ReadError = SpanOverflow | MapFailed | SizeMismatch | CopyFailed

  method MemmapZeroCopy(plan: ReadPlan, elemSize: nat, file: Bytes, span: Span)
    returns (r: Result<seq<Bytes>, ReadError>)
    ensures span.len == Product(plan.selShape) * elemSize && span.start + span.len <= |file| ==>
              r == Ok(MappedView(file, span.start, elemSize, Product(plan.selShape)))
    ensures r.Ok? ==> span.len == Product(plan.selShape) * elemSize
  {
    var count := Product(plan.selShape);
    if span.start + count * elemSize > |file| {
      return Err(MapFailed);
    }
    if count * elemSize != span.len {
      return Err(SizeMismatch);
    }
    return Ok(MappedView(file, span.start, elemSize, count));
  }

  /** `Ok(None)` means fall back to the copying reader. */
  method TryZeroCopy(plan: ReadPlan, elemSize: nat, file: Bytes, usizeLimit: nat)
    returns (r: Result<Option<seq<Bytes>>, ReadError>)
    requires |file| < usizeLimit <= U64_LIMIT
    ensures plan.logicalElementCount == Product(plan.selShape) ==>
      r == if !Accepts(plan, elemSize, usizeLimit) then Ok(None)
           else if SpanEnd(plan, elemSize) >= usizeLimit then Err(SpanOverflow)
           else if SpanEnd(plan, elemSize) > |file| then Ok(None)
           else Ok(Some(MappedView(file, plan.chunks[0].payloadOffset, elemSize, plan.logicalElementCount)))
  {
    var span := DetectContiguousRowMajorView(plan, elemSize, usizeLimit);
    if span.None? {
      return Ok(None);
    }
    var end := span.value.start + span.value.len;
    if end >= usizeLimit {
      return Err(SpanOverflow);
    }
    if end > |file| {
      return Ok(None);
    }
    var view := MemmapZeroCopy(plan, elemSize, file, span.value);
    match view
    case Ok(elements) => return Ok(Some(elements));
    case Err(e) => return Err(e);
  }

  function SpanEnd(plan: ReadPlan, elemSize: nat): nat
    requires |plan.chunks| > 0
  {
    plan.chunks[0].payloadOffset + plan.logicalElementCount * elemSize
  }

  /** Where the last payload ends, as a true sum. */
  function LastPayloadEnd(plan: ReadPlan): nat
    requires |plan.chunks| > 0
  {
    plan.chunks[|plan.chunks| - 1].payloadOffset + plan.chunks[|plan.chunks| - 1].rawLen
  }

  /** The wrapped total fits the file although the last payload does not. */
  ghost predicate Misled(plan: ReadPlan, elemSize: nat, file: Bytes, usizeLimit: nat) {
    && Accepts(plan, elemSize, usizeLimit)
    && SpanEnd(plan, elemSize) <= |file| < LastPayloadEnd(plan)
  }

  /** If the last payload runs past the file, the copying reader fails. */
  lemma LastPayloadMissing(plan: ReadPlan, elemSize: nat, file: Bytes, decode: Decoder)
    requires SlabPlan(plan, elemSize) && LastPayloadEnd(plan) > |file| && AllRaw(plan.chunks)
    ensures Materialize(plan, elemSize, file, decode) == None
  {
    var last := |plan.chunks| - 1;
    var cell := ChunkCell(plan, elemSize, last);
    CellRecord(plan, elemSize, cell);
    SlabAt(plan, elemSize, last);
    SlabAt(plan, elemSize, SlabNumber(plan, cell));
    assert TileOf(plan, cell)[0] == FirstSlab(plan) + last;
    assert plan.chunks[SlabNumber(plan, cell)].index[0] == FirstSlab(plan) + last;
    assert Payload(file, plan.chunks[last], decode) == None;
    UnrankRank(plan.selShape, cell);
    assert ElementAt(plan, elemSize, file, decode, Rank(plan.selShape, cell)) == None;
  }

  /** An accepted span whose sum did not wrap ends with the last payload. */
  lemma AcceptedEnds(plan: ReadPlan, elemSize: nat, usizeLimit: nat)
    requires WellFormed(plan, elemSize) && Accepts(plan, elemSize, usizeLimit) && usizeLimit <= U64_LIMIT
    ensures SlabPlan(plan, elemSize)
    ensures LastPayloadEnd(plan) == plan.chunks[0].payloadOffset + TotalRaw(plan.chunks) >= SpanEnd(plan, elemSize)
    ensures LastPayloadEnd(plan) < U64_LIMIT ==> TotalRaw(plan.chunks) == plan.logicalElementCount * elemSize
  {
    PayloadEnd(plan.chunks);
    ModBelow(TotalRaw(plan.chunks), U64_LIMIT);
  }

  lemma ModBelow(a: nat, m: nat)
    requires m > 0
    ensures a % m <= a && (a < m ==> a % m == a)
  {
    if a < m {
      QuotientUnique(0, a, m);
    }
  }

  /**
   The read a caller sees. It agrees with tile-by-tile materialization for every well-formed
   plan, whatever the rank, shapes, step and codecs, except when the wrapped length sum of
   the detector is the only thing that fits the file.
   */
  method Read(plan: ReadPlan, elemSize: nat, file: Bytes, decode: Decoder, usizeLimit: nat)
    returns (r: Result<seq<Bytes>, ReadError>)
    requires WellFormed(plan, elemSize)
    requires |file| < usizeLimit <= U64_LIMIT
    ensures (match r case Ok(elements) => Materialize(plan, elemSize, file, decode) == Some(elements)
                     case Err(_) => Materialize(plan, elemSize, file, decode) == None)
       <==> !Misled(plan, elemSize, file, usizeLimit)
    ensures r != Err(SizeMismatch) && r != Err(MapFailed)
  {
    var view := TryZeroCopy(plan, elemSize, file, usizeLimit);
    if Accepts(plan, elemSize, usizeLimit) {
      ReadAgrees(plan, elemSize, file, decode, usizeLimit);
    }
    match view
    case Err(e) =>
      return Err(e);
    case Ok(Some(elements)) =>
      return Ok(elements);
    case Ok(None) =>
      var dense := Materialize(plan, elemSize, file, decode);
      if dense.None? {
        return Err(CopyFailed);
      }
      return Ok(dense.value);
  }

  lemma ReadAgrees(plan: ReadPlan, elemSize: nat, file: Bytes, decode: Decoder, usizeLimit: nat)
    requires WellFormed(plan, elemSize) && |file| < usizeLimit <= U64_LIMIT
    requires Accepts(plan, elemSize, usizeLimit)
    ensures LastPayloadEnd(plan) > |file| ==> Materialize(plan, elemSize, file, decode) == None
    ensures LastPayloadEnd(plan) <= |file| ==>
      SpanEnd(plan, elemSize) <= |file|
      && Materialize(plan, elemSize, file, decode)
      == Some(MappedView(file, plan.chunks[0].payloadOffset, elemSize, plan.logicalElementCount))
  {
    AcceptedEnds(plan, elemSize, usizeLimit);
    if LastPayloadEnd(plan) > |file| {
      LastPayloadMissing(plan, elemSize, file, decode);
    } else {
      ViewIsMaterialized(plan, elemSize, file, decode);
    }
  }

  /** Consecutive leading indices from record 0 on make a chain of slabs. */
  lemma LeadsAreConsecutive(chunks: seq<ChunkRecord>)
    requires forall k :: 0 <= k < |chunks| ==> |chunks[k].index| > 0
    requires forall k :: 0 <= k < |chunks| ==> chunks[k].index[0] == chunks[0].index[0] + k
    requires forall k :: 1 <= k < |chunks| ==> chunks[k].index[0] < U64_LIMIT
    ensures ConsecutiveSlabs(chunks)
  {
  }

  /** Trailing axes of one tile have tile index 0. */
  lemma TrailingIsZero(plan: ReadPlan, elemSize: nat, k: nat, axis: nat)
    requires WellFormed(plan, elemSize) && k < |plan.chunks|
    requires axis < |plan.chunkShape| && plan.datasetShape[axis] <= plan.chunkShape[axis]
    ensures axis < |plan.chunks[k].index| && plan.chunks[k].index[axis] == 0
  {
    var cell := ChunkCell(plan, elemSize, k);
    assert CellInDataset(plan, cell);
    assert Coordinate(plan, cell, axis) < plan.chunkShape[axis];
  }

  lemma SlabsFromLeads(plan: ReadPlan, elemSize: nat)
    requires WellFormed(plan, elemSize) && |plan.chunkShape| > 0 && |plan.chunks| > 0
    requires forall a :: 1 <= a < |plan.chunkShape| ==> plan.datasetShape[a] <= plan.chunkShape[a]
    requires forall k :: 0 <= k < |plan.chunks| ==> |plan.chunks[k].index| == |plan.chunkShape|
    requires forall k :: 0 <= k < |plan.chunks| ==> plan.chunks[k].index[0] == plan.chunks[0].index[0] + k
    requires forall k :: 1 <= k < |plan.chunks| ==> plan.chunks[k].index[0] < U64_LIMIT
    ensures LeadingAxisSlabs(plan)
  {
    LeadsAreConsecutive(plan.chunks);
    forall k | 0 <= k < |plan.chunks|
      ensures SameTrailing(plan.chunks[k].index, plan.chunks[0].index)
    {
      assert DescribesTile(plan, plan.chunks[k], elemSize) && DescribesTile(plan, plan.chunks[0], elemSize);
      forall axis | 1 <= axis < |plan.chunkShape|
        ensures plan.chunks[k].index[axis] == plan.chunks[0].index[axis]
      {
        TrailingIsZero(plan, elemSize, k, axis);
        TrailingIsZero(plan, elemSize, 0, axis);
      }
    }
    assert DescribesTile(plan, plan.chunks[0], elemSize);
  }

  lemma LeadsFromSlabs(plan: ReadPlan, elemSize: nat, k: nat)
    requires WellFormed(plan, elemSize) && LeadingAxisSlabs(plan) && k < |plan.chunks|
    ensures |plan.chunks[k].index| > 0 && plan.chunks[k].index[0] == plan.chunks[0].index[0] + k
    ensures k > 0 ==> plan.chunks[k].index[0] < U64_LIMIT
  {
    LeadSteps(plan.chunks, k);
    assert k > 0 ==> NextSlab(plan.chunks[k - 1], plan.chunks[k]);
  }

  lemma AdjacentMeans(chunks: seq<ChunkRecord>)
    requires forall k :: 0 <= k < |chunks| ==> chunks[k].payloadOffset < U64_LIMIT
    ensures Adjacent(chunks) <==> forall k :: 1 <= k < |chunks| ==>
      chunks[k].payloadOffset == chunks[k - 1].payloadOffset + chunks[k - 1].rawLen
  {
    if Adjacent(chunks) {
      assert forall k :: 1 <= k < |chunks| ==> Abuts(chunks[k - 1], chunks[k]);
    }
  }

  lemma OffsetsInRange(plan: ReadPlan, elemSize: nat)
    requires WellFormed(plan, elemSize)
    ensures forall k :: 0 <= k < |plan.chunks| ==> plan.chunks[k].payloadOffset < U64_LIMIT
    ensures forall k :: 0 <= k < |plan.chunks| ==>
      |plan.chunks[k].index| == |plan.chunks[k].extent| == |plan.chunkShape| == |plan.datasetShape|
  {
    forall k | 0 <= k < |plan.chunks|
      ensures plan.chunks[k].payloadOffset < U64_LIMIT
      ensures |plan.chunks[k].index| == |plan.chunks[k].extent| == |plan.chunkShape| == |plan.datasetShape|
    {
      assert DescribesTile(plan, plan.chunks[k], elemSize);
    }
  }

  /** Which cells are selected and which lie in a listed tile, by quotients. */
  lemma ListedMeans(plan: ReadPlan, elemSize: nat, x: seq<nat>)
    requires WellFormed(plan, elemSize) && InBox(plan.datasetShape, x)
    ensures Selected(plan, x) <==> forall i :: 0 <= i < |x| ==> plan.start[i] <= x[i] < plan.start[i] + plan.selShape[i]
    ensures InListedTile(plan, x) <==> exists k :: 0 <= k < |plan.chunks| && OfTile(plan, x, k)
  {
    forall i | 0 <= i < |x|
      ensures TileIndex(x[i], plan.chunkShape[i]) == x[i] / plan.chunkShape[i]
    {
      TileIsDivision(x[i], plan.chunkShape[i]);
    }
    OffsetsInRange(plan, elemSize);
    assert forall k :: 0 <= k < |plan.chunks| ==> (TileContains(plan, plan.chunks[k].index, x) <==> OfTile(plan, x, k));
  }

  /** Record `k` is the tile of the cell: quotient by quotient. */
  ghost predicate OfTile(plan: ReadPlan, x: seq<nat>, k: nat)
    requires Shaped(plan) && |x| == |plan.chunkShape| && k < |plan.chunks|
  {
    |plan.chunks[k].index| == |x| && forall i :: 0 <= i < |x| ==> x[i] / plan.chunkShape[i] == plan.chunks[k].index[i]
  }

  lemma WholeTilesMeans(plan: ReadPlan, elemSize: nat)
    requires WellFormed(plan, elemSize)
    ensures SelectionIsListedTiles(plan)
       <==> forall x {:trigger InBox(plan.datasetShape, x)} | InBox(plan.datasetShape, x) ::
              (forall i :: 0 <= i < |x| ==> plan.start[i] <= x[i] < plan.start[i] + plan.selShape[i])
              <==> exists k :: 0 <= k < |plan.chunks| && OfTile(plan, x, k)
  {
    forall x | InBox(plan.datasetShape, x)
      ensures SelectedIffListed(plan, x)
         <==> ((forall i :: 0 <= i < |x| ==> plan.start[i] <= x[i] < plan.start[i] + plan.selShape[i])
               <==> exists k :: 0 <= k < |plan.chunks| && OfTile(plan, x, k))
    {
      ListedMeans(plan, elemSize, x);
    }
  }

  lemma NoPaddingMeans(plan: ReadPlan, elemSize: nat)
    requires WellFormed(plan, elemSize)
    ensures NoPadding(plan, elemSize)
       <==> forall k, i :: 0 <= k < |plan.chunks| && 0 <= i < |plan.chunks[k].extent|
                           && |plan.chunks[k].index| == |plan.chunks[k].extent| == |plan.chunkShape| ==>
              var first := plan.chunks[k].index[i] * plan.chunkShape[i];
              first + plan.chunks[k].extent[i]
              == if plan.datasetShape[i] < first + plan.chunkShape[i] then plan.datasetShape[i] else first + plan.chunkShape[i]
  {
    forall k | 0 <= k < |plan.chunks|
      ensures DescribesTile(plan, plan.chunks[k], elemSize)
    {
    }
    OffsetsInRange(plan, elemSize);
  }

  lemma AcceptsOnSlabs(plan: ReadPlan, elemSize: nat, usizeLimit: nat)
    requires WellFormed(plan, elemSize) && usizeLimit <= U64_LIMIT
    ensures Accepts(plan, elemSize, usizeLimit) && TotalRaw(plan.chunks) < U64_LIMIT
       <==> SlabPlan(plan, elemSize) && AllRaw(plan.chunks) && Adjacent(plan.chunks)
            && SelectionIsListedTiles(plan) && NoPadding(plan, elemSize)
            && plan.logicalElementCount * elemSize < usizeLimit
            && plan.chunks[0].payloadOffset < usizeLimit
  {
    ModBelow(TotalRaw(plan.chunks), U64_LIMIT);
    if SlabPlan(plan, elemSize) {
      EqualVolumeIffWholeTiles(plan, elemSize);
      NonEmpty(plan, elemSize);
      MulMonotone(1, plan.logicalElementCount, elemSize);
    }
  }

  lemma SlabsMean(plan: ReadPlan, elemSize: nat)
    requires WellFormed(plan, elemSize)
    ensures LeadingAxisSlabs(plan)
       <==> |plan.chunkShape| > 0 && |plan.chunks| > 0
            && (forall a :: 1 <= a < |plan.chunkShape| ==> plan.datasetShape[a] <= plan.chunkShape[a])
            && (forall k :: 0 <= k < |plan.chunks| ==> |plan.chunks[k].index| == |plan.chunkShape|)
            && (forall k :: 0 <= k < |plan.chunks| ==>
                  plan.chunks[k].index[0] == plan.chunks[0].index[0] + k
                  && (k > 0 ==> plan.chunks[k].index[0] < U64_LIMIT))
  {
    OffsetsInRange(plan, elemSize);
    if LeadingAxisSlabs(plan) {
      forall k | 0 <= k < |plan.chunks|
        ensures |plan.chunks[k].index| > 0 && plan.chunks[k].index[0] == plan.chunks[0].index[0] + k
        ensures k > 0 ==> plan.chunks[k].index[0] < U64_LIMIT
      {
        LeadsFromSlabs(plan, elemSize, k);
      }
    }
    if |plan.chunkShape| > 0 && |plan.chunks| > 0
       && (forall a :: 1 <= a < |plan.chunkShape| ==> plan.datasetShape[a] <= plan.chunkShape[a])
       && (forall k :: 0 <= k < |plan.chunks| ==> |plan.chunks[k].index| == |plan.chunkShape|)
       && (forall k :: 0 <= k < |plan.chunks| ==>
             plan.chunks[k].index[0] == plan.chunks[0].index[0] + k
             && (k > 0 ==> plan.chunks[k].index[0] < U64_LIMIT))
    {
      SlabsFromLeads(plan, elemSize);
    }
  }

  /**
   Exactly when a span is handed out, in terms of the plan's own fields: a plan whose payload
   sum does not wrap is accepted if and only if every step is 1, one tile spans each trailing
   axis, the leading indices count up, the payloads are raw and end to end, a dataset cell is
   selected exactly when it lies in a listed tile, no payload is padded, and the sizes fit.
   */
  lemma AcceptsExactly(plan: ReadPlan, elemSize: nat, usizeLimit: nat)
    requires WellFormed(plan, elemSize) && usizeLimit <= U64_LIMIT
    ensures Accepts(plan, elemSize, usizeLimit) && TotalRaw(plan.chunks) < U64_LIMIT
       <==> |plan.chunkShape| > 0 && |plan.chunks| > 0
            && (forall a :: 0 <= a < |plan.step| ==> plan.step[a] == 1)
            && (forall a :: 1 <= a < |plan.chunkShape| ==> plan.datasetShape[a] <= plan.chunkShape[a])
            && (forall k :: 0 <= k < |plan.chunks| ==> |plan.chunks[k].index| == |plan.chunkShape|)
            && (forall k :: 0 <= k < |plan.chunks| ==>
                  plan.chunks[k].index[0] == plan.chunks[0].index[0] + k
                  && (k > 0 ==> plan.chunks[k].index[0] < U64_LIMIT))
            && (forall k :: 0 <= k < |plan.chunks| ==>
                  plan.chunks[k].codec == Raw && plan.chunks[k].storedLen == plan.chunks[k].rawLen)
            && (forall k :: 1 <= k < |plan.chunks| ==>
                  plan.chunks[k].payloadOffset == plan.chunks[k - 1].payloadOffset + plan.chunks[k - 1].rawLen)
            && (forall x {:trigger InBox(plan.datasetShape, x)} | InBox(plan.datasetShape, x) ::
                  (forall i :: 0 <= i < |x| ==> plan.start[i] <= x[i] < plan.start[i] + plan.selShape[i])
                  <==> exists k :: 0 <= k < |plan.chunks| && OfTile(plan, x, k))
            && (forall k, i :: 0 <= k < |plan.chunks| && 0 <= i < |plan.chunks[k].extent|
                               && |plan.chunks[k].index| == |plan.chunks[k].extent| == |plan.chunkShape| ==>
                  var first := plan.chunks[k].index[i] * plan.chunkShape[i];
                  first + plan.chunks[k].extent[i]
                  == if plan.datasetShape[i] < first + plan.chunkShape[i] then plan.datasetShape[i] else first + plan.chunkShape[i])
            && plan.logicalElementCount * elemSize < usizeLimit
            && plan.chunks[0].payloadOffset < usizeLimit
  {
    AcceptsOnSlabs(plan, elemSize, usizeLimit);
    SlabsMean(plan, elemSize);
    OffsetsInRange(plan, elemSize);
    AdjacentMeans(plan.chunks);
    WholeTilesMeans(plan, elemSize);
    NoPaddingMeans(plan, elemSize);
  }

  // ----- the wrapped sum is reachable -----

  const HUGE_ROWS: nat := 0x1000_0000_0000_0001
  const HUGE_RAW: nat := 0x8000_0000_0000_0008

  /**
   Two payloads of 2^63 + 8 bytes each, from offset `base` on: their `u64` sum is 16, the size of
   the two-element selection.
   */
  function HugePlan(base: nat): ReadPlan {
    ReadPlan([2 * HUGE_ROWS], [HUGE_ROWS], [HUGE_ROWS - 1], [2], [1], 2,
             [ChunkRecord([0], Raw, base, HUGE_RAW, HUGE_RAW, [HUGE_ROWS]),
              ChunkRecord([1], Raw, base + HUGE_RAW, HUGE_RAW, HUGE_RAW, [HUGE_ROWS])])
  }

  lemma HugePlanTiles(base: nat, cell: seq<nat>)
    requires InBox([2], cell)
    ensures TileOf(HugePlan(base), cell) == [cell[0]]
    ensures Coordinate(HugePlan(base), cell, 0) == HUGE_ROWS - 1 + cell[0]
  {
    assert Coordinate(HugePlan(base), cell, 0) == HUGE_ROWS - 1 + cell[0];
    if cell[0] == 1 {
      assert TileIndex(HUGE_ROWS, HUGE_ROWS) == 1 + TileIndex(0, HUGE_ROWS);
    }
  }

  lemma HugePlanIsWellFormed(base: nat)
    requires base + HUGE_RAW < U64_LIMIT
    ensures WellFormed(HugePlan(base), 8)
  {
    var plan := HugePlan(base);
    assert Product([2]) == 2 && Product([HUGE_ROWS]) == HUGE_ROWS;
    forall cell | InBox(plan.selShape, cell)
      ensures CellInDataset(plan, cell) && CellIsListed(plan, cell)
    {
      HugePlanTiles(base, cell);
      assert plan.chunks[cell[0]].index == TileOf(plan, cell);
    }
    forall k | 0 <= k < |plan.chunks|
      ensures ChunkIsTouched(plan, k)
    {
      HugePlanTiles(base, [k]);
      assert InBox(plan.selShape, [k]) && TileOf(plan, [k]) == plan.chunks[k].index;
    }
  }

  lemma HugePlanIsAccepted(base: nat)
    requires base + HUGE_RAW < U64_LIMIT
    ensures Accepts(HugePlan(base), 8, U64_LIMIT)
    ensures SpanEnd(HugePlan(base), 8) == base + 16 && LastPayloadEnd(HugePlan(base)) == base + 2 * HUGE_RAW
  {
    var plan := HugePlan(base);
    var first := plan.chunks[..1];
    assert first[..0] == [] && first[0] == plan.chunks[0];
    assert TotalRaw(first) == TotalRaw(first[..0]) + HUGE_RAW;
    assert TotalRaw(plan.chunks) == TotalRaw(first) + HUGE_RAW == 0x1_0000_0000_0000_0010;
    assert NextSlab(plan.chunks[0], plan.chunks[1]) && Abuts(plan.chunks[0], plan.chunks[1]);
  }

  /**
   Well-formed plans on which the mapped view and the copying reader differ: the payloads may
   start anywhere in the lower half of the address space, behind whatever catalog the file holds,
   and the file may have any length from the wrapped end of the span up to the true one.
   */
  lemma WrappedSumMisleads(base: nat, file: Bytes, decode: Decoder)
    requires base + HUGE_RAW < U64_LIMIT
    requires base + 16 <= |file| < base + 2 * HUGE_RAW
    ensures WellFormed(HugePlan(base), 8)
    ensures Misled(HugePlan(base), 8, file, U64_LIMIT)
    ensures Materialize(HugePlan(base), 8, file, decode) == None
  {
    HugePlanIsWellFormed(base);
    HugePlanIsAccepted(base);
    LastPayloadMissing(HugePlan(base), 8, file, decode);
  }
}
