/**
 When raw chunk payloads on disk may be handed out as the dense row-major selection.
 Integers are those of a release build: `u64` sums wrap, checked operations give up.
 */
module ZeroCopy {
  import opened Wrappers
  import opened ReadPlans

  datatype Span = Span(start: nat, len: nat)

  ghost predicate UnitStep(plan: ReadPlan) {
    forall i :: 0 <= i < |plan.step| ==> plan.step[i] == 1
  }

  ghost predicate TrailingAxesCovered(plan: ReadPlan) {
    forall axis :: 1 <= axis < |plan.chunkShape| == |plan.datasetShape| ==>
      plan.datasetShape[axis] <= plan.chunkShape[axis]
  }

  ghost predicate SameTrailing(index: seq<nat>, first: seq<nat>) {
    |index| == |first| && forall axis :: 1 <= axis < |first| ==> index[axis] == first[axis]
  }

  ghost predicate NextSlab(chunk: ChunkRecord, next: ChunkRecord) {
    |chunk.index| > 0 && |next.index| > 0 && next.index[0] == chunk.index[0] + 1 < U64_LIMIT
  }

  ghost predicate ConsecutiveSlabs(chunks: seq<ChunkRecord>) {
    forall j, k :: 0 <= j < k < |chunks| && k == j + 1 ==> NextSlab(chunks[j], chunks[k])
  }

  /** The chunks tile the leading axis only, one after the other. */
  ghost predicate LeadingAxisSlabs(plan: ReadPlan) {
    && 0 < |plan.chunkShape| == |plan.datasetShape|
    && TrailingAxesCovered(plan)
    && |plan.chunks| > 0
    && |plan.chunks[0].index| == |plan.chunkShape|
    && (forall k :: 0 <= k < |plan.chunks| ==> SameTrailing(plan.chunks[k].index, plan.chunks[0].index))
    && ConsecutiveSlabs(plan.chunks)
  }

  ghost predicate AllRaw(chunks: seq<ChunkRecord>) {
    forall k :: 0 <= k < |chunks| ==> chunks[k].codec == Raw && chunks[k].storedLen == chunks[k].rawLen
  }

  ghost predicate Abuts(chunk: ChunkRecord, next: ChunkRecord) {
    next.payloadOffset == chunk.payloadOffset + chunk.rawLen < U64_LIMIT
  }

  ghost predicate Adjacent(chunks: seq<ChunkRecord>) {
    forall j, k :: 0 <= j < k < |chunks| && k == j + 1 ==> Abuts(chunks[j], chunks[k])
  }

  /** True length of all payloads together. */
  function TotalRaw(chunks: seq<ChunkRecord>): nat {
    if chunks == [] then 0 else TotalRaw(chunks[..|chunks| - 1]) + chunks[|chunks| - 1].rawLen
  }

  /** Exactly when the detector hands out a span. */
  ghost predicate Accepts(plan: ReadPlan, elemSize: nat, usizeLimit: nat) {
    && UnitStep(plan)
    && LeadingAxisSlabs(plan)
    && 0 < plan.logicalElementCount * elemSize < usizeLimit
    && AllRaw(plan.chunks)
    && Adjacent(plan.chunks)
    && TotalRaw(plan.chunks) % U64_LIMIT == plan.logicalElementCount * elemSize
    && plan.chunks[0].payloadOffset < usizeLimit
  }

  method HasSameTrailing(index: seq<nat>, first: seq<nat>) returns (same: bool)
    ensures same <==> SameTrailing(index, first)
  {
    if |index| != |first| {
      return false;
    }
    var axis := 1;
    while axis < |first|
      invariant 1 <= axis
      invariant forall a :: 1 <= a < axis && a < |first| ==> index[a] == first[a]
    {
      if index[axis] != first[axis] {
        return false;
      }
      axis := axis + 1;
    }
    return true;
  }

  method AreConsecutiveSlabs(chunks: seq<ChunkRecord>) returns (consecutive: bool)
    requires forall k :: 0 <= k < |chunks| ==> |chunks[k].index| > 0
    ensures consecutive <==> ConsecutiveSlabs(chunks)
  {
    var i := 1;
    while i < |chunks|
      invariant 1 <= i
      invariant forall j, k :: 0 <= j < k < |chunks| && k == j + 1 && k < i ==> NextSlab(chunks[j], chunks[k])
    {
      var next := chunks[i - 1].index[0] + 1;
      if next >= U64_LIMIT || chunks[i].index[0] != next {
        assert !NextSlab(chunks[i - 1], chunks[i]);
        return false;
      }
      i := i + 1;
    }
    return true;
  }

  /** The slab test in terms of the plan's own fields. */
  lemma SlabsInFields(plan: ReadPlan)
    ensures LeadingAxisSlabs(plan)
       <==> 0 < |plan.chunkShape| == |plan.datasetShape| && |plan.chunks| > 0
            && (forall axis :: 1 <= axis < |plan.chunkShape| ==> plan.datasetShape[axis] <= plan.chunkShape[axis])
            && (forall k :: 0 <= k < |plan.chunks| ==> |plan.chunks[k].index| == |plan.chunkShape|)
            && (forall k, axis :: 0 <= k < |plan.chunks| && 1 <= axis < |plan.chunkShape| ==>
                  plan.chunks[k].index[axis] == plan.chunks[0].index[axis])
            && (forall j, k :: 0 <= j < k < |plan.chunks| && k == j + 1 ==>
                  plan.chunks[k].index[0] == plan.chunks[j].index[0] + 1 < U64_LIMIT)
  {
    if LeadingAxisSlabs(plan) {
      assert forall k :: 0 <= k < |plan.chunks| ==> SameTrailing(plan.chunks[k].index, plan.chunks[0].index);
      forall j, k | 0 <= j < k < |plan.chunks| && k == j + 1
        ensures plan.chunks[k].index[0] == plan.chunks[j].index[0] + 1 < U64_LIMIT
      {
        assert NextSlab(plan.chunks[j], plan.chunks[k]);
      }
    }
  }

  method DetectLeadingAxisSlabs(plan: ReadPlan) returns (slabs: bool)
    ensures slabs <==> LeadingAxisSlabs(plan)
  {
    var rank := |plan.chunkShape|;
    if rank == 0 || |plan.datasetShape| != rank {
      return false;
    }
    for axis := 1 to rank
      invariant forall a :: 1 <= a < axis ==> plan.datasetShape[a] <= plan.chunkShape[a]
    {
      if plan.chunkShape[axis] < plan.datasetShape[axis] {
        return false;
      }
    }
    if |plan.chunks| == 0 || |plan.chunks[0].index| != rank {
      return false;
    }
    for k := 0 to |plan.chunks|
      invariant forall j :: 0 <= j < k ==> SameTrailing(plan.chunks[j].index, plan.chunks[0].index)
    {
      var same := HasSameTrailing(plan.chunks[k].index, plan.chunks[0].index);
      if !same {
        return false;
      }
    }
    slabs := AreConsecutiveSlabs(plan.chunks);
  }

  method WrappingTotalRaw(chunks: seq<ChunkRecord>) returns (total: nat)
    ensures total == TotalRaw(chunks) % U64_LIMIT
  {
    total := 0;
    for k := 0 to |chunks|
      invariant total == TotalRaw(chunks[..k]) % U64_LIMIT
    {
      assert chunks[..k + 1][..k] == chunks[..k];
      total := (total + chunks[k].rawLen) % U64_LIMIT;
    }
    assert chunks[..|chunks|] == chunks;
  }

  method AreRaw(chunks: seq<ChunkRecord>) returns (raw: bool)
    ensures raw <==> AllRaw(chunks)
  {
    for k := 0 to |chunks|
      invariant AllRaw(chunks[..k])
    {
      if chunks[k].codec != Raw || chunks[k].storedLen != chunks[k].rawLen {
        return false;
      }
    }
    assert chunks[..|chunks|] == chunks;
    return true;
  }

  method AreAdjacent(chunks: seq<ChunkRecord>) returns (adjacent: bool)
    ensures adjacent <==> Adjacent(chunks)
  {
    var i := 1;
    while i < |chunks|
      invariant 1 <= i
      invariant forall j, k :: 0 <= j < k < |chunks| && k == j + 1 && k < i ==> Abuts(chunks[j], chunks[k])
    {
      var end := chunks[i - 1].payloadOffset + chunks[i - 1].rawLen;
      if end >= U64_LIMIT || end != chunks[i].payloadOffset {
        assert !Abuts(chunks[i - 1], chunks[i]);
        return false;
      }
      i := i + 1;
    }
    return true;
  }

  method DetectContiguousRowMajorView(plan: ReadPlan, elemSize: nat, usizeLimit: nat)
    returns (span: Option<Span>)
    requires usizeLimit <= U64_LIMIT
    ensures span.Some? <==> Accepts(plan, elemSize, usizeLimit)
    ensures span.Some? ==>
      span.value == Span(plan.chunks[0].payloadOffset, plan.logicalElementCount * elemSize)
  {
    if |plan.chunks| == 0 {
      return None;
    }
    for i := 0 to |plan.step|
      invariant forall j :: 0 <= j < i ==> plan.step[j] == 1
    {
      if plan.step[i] != 1 {
        return None;
      }
    }
    var slabs := DetectLeadingAxisSlabs(plan);
    if !slabs {
      return None;
    }
    var expectedRaw := plan.logicalElementCount * elemSize;
    if expectedRaw >= usizeLimit || expectedRaw == 0 {
      return None;
    }
    var raw := AreRaw(plan.chunks);
    if !raw {
      return None;
    }
    var adjacent := AreAdjacent(plan.chunks);
    if !adjacent {
      return None;
    }
    var totalRaw := WrappingTotalRaw(plan.chunks);
    if totalRaw != expectedRaw || plan.chunks[0].payloadOffset >= usizeLimit {
      return None;
    }
    return Some(Span(plan.chunks[0].payloadOffset, totalRaw));
  }

  /** Adjacency telescopes: payload `k` starts where the payloads before it end. */
  lemma {:induction false} OffsetsTelescope(chunks: seq<ChunkRecord>, k: nat)
    requires Adjacent(chunks) && k < |chunks|
    ensures chunks[k].payloadOffset == chunks[0].payloadOffset + TotalRaw(chunks[..k])
  {
    if k > 0 {
      OffsetsTelescope(chunks, k - 1);
      assert Abuts(chunks[k - 1], chunks[k]);
      assert chunks[..k][..k - 1] == chunks[..k - 1];
    }
  }

  lemma {:induction false} PayloadEnd(chunks: seq<ChunkRecord>)
    requires Adjacent(chunks) && |chunks| > 0
    ensures var last := chunks[|chunks| - 1];
            last.payloadOffset + last.rawLen == chunks[0].payloadOffset + TotalRaw(chunks)
  {
    OffsetsTelescope(chunks, |chunks| - 1);
  }
}
