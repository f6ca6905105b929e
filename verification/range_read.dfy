/**
 Reading a pinned object over the network. Two rounds of range requests build sparse
 images of the full: the first holds the catalog, the second the chunks a query touches.
 */
module RangeRead {
  import opened Wrappers
  import opened RowMajor
  import opened ReadPlans

  datatype Range = Range(start: nat, len: nat)

  datatype PlannedRead = PlannedRead(plan: ReadPlan, elemSize: nat)

  /**
   What the crate supplies for one query document: the planner over an image, the ranges of
   the catalog, the ranges of a planned read, and the payload decoder.
   */
  datatype Engine = Engine(
    plan: Bytes -> Option<PlannedRead>,
    catalogRanges: Bytes -> Option<seq<Range>>,
    fetchRanges: (Bytes, ReadPlan) -> Option<seq<Range>>,
    decode: Decoder)

  predicate Inside(ranges: seq<Range>, len: nat) {
    forall k :: 0 <= k < |ranges| ==> ranges[k].start + ranges[k].len <= len
  }

  predicate Covered(ranges: seq<Range>, i: int) {
    exists k :: 0 <= k < |ranges| && ranges[k].start <= i < ranges[k].start + ranges[k].len
  }

  /** The object's bytes inside the ranges, zeros elsewhere; a range past the end is an error. */
  function Assemble(full: Bytes, ranges: seq<Range>): Option<Bytes> {
    if Inside(ranges, |full|) then
      Some(seq(|full|, i requires 0 <= i < |full| => if Covered(ranges, i) then full[i] else 0))
    else
      None
  }

  ghost predicate AgreeOn(image: Bytes, full: Bytes, ranges: seq<Range>) {
    |image| == |full| && forall i :: 0 <= i < |full| && Covered(ranges, i) ==> image[i] == full[i]
  }

  ghost predicate CoversPayloads(ranges: seq<Range>, plan: ReadPlan) {
    forall k, i :: 0 <= k < |plan.chunks|
      && plan.chunks[k].payloadOffset <= i < plan.chunks[k].payloadOffset + plan.chunks[k].storedLen
      ==> Covered(ranges, i)
  }

  ghost predicate PayloadsInside(plan: ReadPlan, len: nat) {
    forall k :: 0 <= k < |plan.chunks| ==> plan.chunks[k].payloadOffset + plan.chunks[k].storedLen <= len
  }

  /** The planner reads nothing but the catalog, and fails where the catalog cannot be fetched. */
  ghost predicate PlansFromCatalog(engine: Engine, full: Bytes) {
    match engine.catalogRanges(full)
    case None => engine.plan(full) == None
    case Some(ranges) =>
      && (!Inside(ranges, |full|) ==> engine.plan(full) == None)
      && forall image: Bytes :: AgreeOn(image, full, ranges) ==> engine.plan(image) == engine.plan(full)
  }

  /** The ranges of a read cover the catalog and the payloads, and fail only for a missing payload. */
  ghost predicate FetchesEnough(engine: Engine, full: Bytes) {
    match (engine.plan(full), engine.catalogRanges(full))
    case (Some(p), Some(catalog)) =>
      && Shaped(p.plan)
      && (match engine.fetchRanges(full, p.plan)
          case None => !PayloadsInside(p.plan, |full|)
          case Some(ranges) =>
            && CoversPayloads(ranges, p.plan)
            && (forall i :: Covered(catalog, i) ==> Covered(ranges, i))
            && (PayloadsInside(p.plan, |full|) ==> Inside(ranges, |full|)))
    case _ => true
  }

  ghost predicate DistinctTiles(plan: ReadPlan) {
    forall j, k :: 0 <= j < k < |plan.chunks| ==> plan.chunks[j].index != plan.chunks[k].index
  }

  ghost predicate Honours(engine: Engine, full: Bytes) {
    && PlansFromCatalog(engine, full)
    && FetchesEnough(engine, full)
    && (engine.plan(full).Some? ==>
          var p := engine.plan(full).value;
          WellFormed(p.plan, p.elemSize) && DistinctTiles(p.plan))
  }

  /** Materialize a query from one image of the full. */
  function ReadImage(engine: Engine, image: Bytes): Option<seq<Bytes>>
    requires engine.plan(image).Some? ==> Shaped(engine.plan(image).value.plan)
  {
    match engine.plan(image)
    case None => None
    case Some(p) => Materialize(p.plan, p.elemSize, image, engine.decode)
  }

  lemma AssembledAgrees(full: Bytes, ranges: seq<Range>, image: Bytes)
    requires Assemble(full, ranges) == Some(image)
    ensures AgreeOn(image, full, ranges)
  {
  }

  /** The reader looks at nothing but the payloads of the records. */
  lemma PayloadAgrees(plan: ReadPlan, image: Bytes, full: Bytes, ranges: seq<Range>, decode: Decoder, k: nat)
    requires AgreeOn(image, full, ranges) && CoversPayloads(ranges, plan) && k < |plan.chunks|
    ensures Payload(image, plan.chunks[k], decode) == Payload(full, plan.chunks[k], decode)
  {
    var c := plan.chunks[k];
    if c.payloadOffset + c.storedLen <= |full| {
      assert forall i :: c.payloadOffset <= i < c.payloadOffset + c.storedLen ==> image[i] == full[i];
      assert image[c.payloadOffset..c.payloadOffset + c.storedLen]
          == full[c.payloadOffset..c.payloadOffset + c.storedLen];
    }
  }

  lemma ElementsAgree(
    plan: ReadPlan, elemSize: nat, image: Bytes, full: Bytes, ranges: seq<Range>, decode: Decoder, p: nat)
    requires Shaped(plan) && p < Product(plan.selShape)
    requires AgreeOn(image, full, ranges) && CoversPayloads(ranges, plan)
    ensures ElementAt(plan, elemSize, image, decode, p) == ElementAt(plan, elemSize, full, decode, p)
  {
    var k := FindChunk(plan.chunks, TileOf(plan, Unrank(plan.selShape, p)));
    if k < |plan.chunks| {
      PayloadAgrees(plan, image, full, ranges, decode, k);
    }
  }

  lemma ReadsAgree(
    plan: ReadPlan, elemSize: nat, image: Bytes, full: Bytes, ranges: seq<Range>, decode: Decoder)
    requires Shaped(plan) && AgreeOn(image, full, ranges) && CoversPayloads(ranges, plan)
    ensures Materialize(plan, elemSize, image, decode) == Materialize(plan, elemSize, full, decode)
  {
    forall p | 0 <= p < Product(plan.selShape)
      ensures ElementAt(plan, elemSize, image, decode, p) == ElementAt(plan, elemSize, full, decode, p)
    {
      ElementsAgree(plan, elemSize, image, full, ranges, decode, p);
    }
    var a, b := Materialize(plan, elemSize, image, decode), Materialize(plan, elemSize, full, decode);
    assert a.Some? <==> b.Some?;
    if a.Some? {
      assert a.value == b.value;
    }
  }

  /** A payload outside the object fails the local read. */
  lemma MissingPayloadFails(plan: ReadPlan, elemSize: nat, full: Bytes, decode: Decoder)
    requires WellFormed(plan, elemSize) && DistinctTiles(plan) && !PayloadsInside(plan, |full|)
    ensures Materialize(plan, elemSize, full, decode) == None
  {
    var k :| 0 <= k < |plan.chunks| && plan.chunks[k].payloadOffset + plan.chunks[k].storedLen > |full|;
    assert ChunkIsTouched(plan, k);
    var cell :| InBox(plan.selShape, cell) && TileOf(plan, cell) == plan.chunks[k].index;
    UnrankRank(plan.selShape, cell);
    assert ElementAt(plan, elemSize, full, decode, Rank(plan.selShape, cell)) == None;
  }

  /** The sparse image of the ranges one query touches. */
  method SelectionImage(engine: Engine, full: Bytes) returns (image: Option<Bytes>)
    requires Honours(engine, full)
    ensures image.Some? ==>
      engine.plan(image.value) == engine.plan(full) && ReadImage(engine, image.value) == ReadImage(engine, full)
    ensures image.None? ==> ReadImage(engine, full) == None
    ensures image.Some? ==>
      engine.plan(full).Some? && engine.fetchRanges(full, engine.plan(full).value.plan).Some?
      && |image.value| == |full|
      && var ranges := engine.fetchRanges(full, engine.plan(full).value.plan).value;
         forall i :: 0 <= i < |full| ==>
           image.value[i]
           == if exists k :: 0 <= k < |ranges| && ranges[k].start <= i < ranges[k].start + ranges[k].len then full[i] else 0
  {
    var catalogPlan := engine.catalogRanges(full);
    if catalogPlan.None? {
      return None;
    }
    var catalog := Assemble(full, catalogPlan.value);
    if catalog.None? {
      return None;
    }
    AssembledAgrees(full, catalogPlan.value, catalog.value);
    var planned := engine.plan(catalog.value);
    if planned.None? {
      return None;
    }
    var p := planned.value;
    var fetch := engine.fetchRanges(full, p.plan);
    if !PayloadsInside(p.plan, |full|) {
      MissingPayloadFails(p.plan, p.elemSize, full, engine.decode);
    }
    if fetch.None? {
      return None;
    }
    image := Assemble(full, fetch.value);
    if image.Some? {
      AssembledAgrees(full, fetch.value, image.value);
      assert AgreeOn(image.value, full, catalogPlan.value);
      ReadsAgree(p.plan, p.elemSize, image.value, full, fetch.value, engine.decode);
    }
  }

  /** A range read returns what a read of the whole object returns, failures included. */
  method ReadRemote(engine: Engine, full: Bytes) returns (r: Option<seq<Bytes>>)
    requires Honours(engine, full)
    ensures r == ReadImage(engine, full)
  {
    var image := SelectionImage(engine, full);
    if image.None? {
      return None;
    }
    r := ReadImage(engine, image.value);
  }
}
