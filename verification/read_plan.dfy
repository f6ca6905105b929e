/**
 A planned read of one selection, and the reference reader.

 The planner and the chunk decoder belong to the tetration crate. What they promise is the
 predicate `WellFormed`; what a read returns is `Materialize`, which looks up the tile of
 every selected cell and then the cell inside the tile.
 */
module ReadPlans {
  import opened Wrappers
  import opened RowMajor

  /** One past the largest `u64`. */
  const U64_LIMIT: nat := 0x1_0000_0000_0000_0000

  datatype Codec = Raw | Encoded(tag: nat)

  /** `extent` is the tile shape the payload was laid out with. The detector never looks at it. */
  datatype ChunkRecord = ChunkRecord(
    index: seq<nat>, codec: Codec, payloadOffset: nat, storedLen: nat, rawLen: nat, extent: seq<nat>)

  datatype ReadPlan = ReadPlan(
    datasetShape: seq<nat>, chunkShape: seq<nat>,
    start: seq<nat>, selShape: seq<nat>, step: seq<nat>,
    logicalElementCount: nat, chunks: seq<ChunkRecord>)

  type Bytes = seq<bv8>

  /** Turns stored bytes into raw bytes for the codecs of the crate; `None` is a decode error. */
  type Decoder = (ChunkRecord, Bytes) -> Option<Bytes>

  ghost predicate Shaped(plan: ReadPlan) {
    && |plan.datasetShape| == |plan.chunkShape|
    && |plan.start| == |plan.selShape| == |plan.step| == |plan.chunkShape|
    && forall i :: 0 <= i < |plan.chunkShape| ==> plan.chunkShape[i] > 0
  }

  function Min(a: int, b: int): int {
    if a < b then a else b
  }

  /** Which tile of length `c` the coordinate `x` falls in: the quotient `x / c`. */
  function TileIndex(x: nat, c: nat): nat
    requires c > 0
  {
    if x < c then 0 else 1 + TileIndex(x - c, c)
  }

  /** How far `x` lies into its tile: the remainder `x % c`. */
  function TileOffset(x: nat, c: nat): nat
    requires c > 0
  {
    if x < c then x else TileOffset(x - c, c)
  }

  lemma {:induction false} TileSplit(x: nat, c: nat)
    requires c > 0
    ensures x == TileIndex(x, c) * c + TileOffset(x, c) && TileOffset(x, c) < c
  {
    if x < c {
    } else {
      TileSplit(x - c, c);
      MulSucc(TileIndex(x - c, c), c);
    }
  }

  lemma MulSucc(a: int, c: int)
    ensures (1 + a) * c == a * c + c
  {
  }

  lemma TileIsDivision(x: nat, c: nat)
    requires c > 0
    ensures TileIndex(x, c) == x / c && TileOffset(x, c) == x % c
  {
    TileSplit(x, c);
    QuotientUnique(TileIndex(x, c), TileOffset(x, c), c);
  }

  lemma {:induction false} TileMonotone(x: nat, y: nat, c: nat)
    requires c > 0 && x <= y
    ensures TileIndex(x, c) <= TileIndex(y, c)
  {
    if c <= x {
      TileMonotone(x - c, y - c, c);
    }
  }

  /** Dataset coordinate on `axis` of the selected cell `cell`. */
  function Coordinate(plan: ReadPlan, cell: seq<nat>, axis: nat): nat
    requires axis < |cell| <= |plan.start| && |plan.start| == |plan.step|
  {
    plan.start[axis] + cell[axis] * plan.step[axis]
  }

  function TileOf(plan: ReadPlan, cell: seq<nat>): (tile: seq<nat>)
    requires Shaped(plan) && |cell| == |plan.selShape|
    ensures |tile| == |cell|
  {
    seq(|cell|, i requires 0 <= i < |cell| => TileIndex(Coordinate(plan, cell, i), plan.chunkShape[i]))
  }

  /** Where `cell` lies inside its tile. */
  function LocalIndex(plan: ReadPlan, cell: seq<nat>): (local: seq<nat>)
    requires Shaped(plan) && |cell| == |plan.selShape|
    ensures |local| == |cell|
  {
    seq(|cell|, i requires 0 <= i < |cell| => TileOffset(Coordinate(plan, cell, i), plan.chunkShape[i]))
  }

  /** Cells of tile `t` that lie inside the dataset, on one axis. */
  function ClippedExtent(datasetLen: nat, chunkLen: nat, t: nat): int {
    Min(chunkLen, datasetLen - t * chunkLen)
  }

  /** The record describes a tile of the dataset: its payload holds at least the cells inside the dataset. */
  ghost predicate DescribesTile(plan: ReadPlan, chunk: ChunkRecord, elemSize: nat)
    requires Shaped(plan)
  {
    && |chunk.index| == |chunk.extent| == |plan.chunkShape|
    && (forall i :: 0 <= i < |chunk.index| ==>
          ClippedExtent(plan.datasetShape[i], plan.chunkShape[i], chunk.index[i]) <= chunk.extent[i])
    && chunk.rawLen == Product(chunk.extent) * elemSize
    && chunk.payloadOffset < U64_LIMIT && chunk.storedLen < U64_LIMIT && chunk.rawLen < U64_LIMIT
  }

  /** The selected cell lies in the dataset. */
  ghost predicate CellInDataset(plan: ReadPlan, cell: seq<nat>)
    requires Shaped(plan) && |cell| == |plan.selShape|
  {
    forall i :: 0 <= i < |cell| ==> Coordinate(plan, cell, i) < plan.datasetShape[i]
  }

  /** The tile of the selected cell has a record. */
  ghost predicate CellIsListed(plan: ReadPlan, cell: seq<nat>)
    requires Shaped(plan) && |cell| == |plan.selShape|
  {
    exists k :: 0 <= k < |plan.chunks| && plan.chunks[k].index == TileOf(plan, cell)
  }

  /** The selection touches the tile of record `k`. */
  ghost predicate ChunkIsTouched(plan: ReadPlan, k: nat)
    requires Shaped(plan) && k < |plan.chunks|
  {
    exists cell :: InBox(plan.selShape, cell) && TileOf(plan, cell) == plan.chunks[k].index
  }

  /**
   What the planner promises: the selection lies in the dataset, the chunks are exactly the
   tiles the selection touches, and every record describes its tile. No order is promised.
   */
  ghost predicate WellFormed(plan: ReadPlan, elemSize: nat) {
    && Shaped(plan)
    && elemSize > 0
    && plan.logicalElementCount == Product(plan.selShape)
    && (forall cell {:trigger CellInDataset(plan, cell)} | InBox(plan.selShape, cell) :: CellInDataset(plan, cell))
    && (forall cell {:trigger CellIsListed(plan, cell)} | InBox(plan.selShape, cell) :: CellIsListed(plan, cell))
    && (forall k {:trigger ChunkIsTouched(plan, k)} | 0 <= k < |plan.chunks| :: ChunkIsTouched(plan, k))
    && (forall k {:trigger DescribesTile(plan, plan.chunks[k], elemSize)} | 0 <= k < |plan.chunks| ::
          DescribesTile(plan, plan.chunks[k], elemSize))
  }

  /** First record of `tile`, or the number of records. */
  function FindChunk(chunks: seq<ChunkRecord>, tile: seq<nat>): (k: nat)
    ensures k <= |chunks|
    ensures k < |chunks| ==> chunks[k].index == tile
    ensures forall j :: 0 <= j < k ==> chunks[j].index != tile
  {
    if chunks == [] || chunks[0].index == tile then 0 else 1 + FindChunk(chunks[1..], tile)
  }

  /** Raw bytes of one chunk. A payload that runs past the end of the file is an error. */
  function Payload(file: Bytes, chunk: ChunkRecord, decode: Decoder): Option<Bytes> {
    if chunk.payloadOffset + chunk.storedLen > |file| then
      None
    else
      var stored := file[chunk.payloadOffset..chunk.payloadOffset + chunk.storedLen];
      if chunk.codec == Raw && chunk.storedLen == chunk.rawLen then Some(stored) else decode(chunk, stored)
  }

  /** The element of one selected cell: look up the tile, then the offset inside the tile. */
  function ReadElement(plan: ReadPlan, elemSize: nat, file: Bytes, decode: Decoder, cell: seq<nat>)
    : (element: Option<Bytes>)
    requires Shaped(plan) && |cell| == |plan.selShape|
    ensures element.Some? ==> |element.value| == elemSize
  {
    var k := FindChunk(plan.chunks, TileOf(plan, cell));
    if k == |plan.chunks| || |plan.chunks[k].extent| != |cell| then
      None
    else
      match Payload(file, plan.chunks[k], decode)
      case None => None
      case Some(payload) =>
        var at := Rank(plan.chunks[k].extent, LocalIndex(plan, cell)) * elemSize;
        if at + elemSize > |payload| then None else Some(payload[at..at + elemSize])
  }

  /** The element at one row-major position of the selection. */
  function ElementAt(plan: ReadPlan, elemSize: nat, file: Bytes, decode: Decoder, position: nat): Option<Bytes>
    requires Shaped(plan) && position < Product(plan.selShape)
  {
    ReadElement(plan, elemSize, file, decode, Unrank(plan.selShape, position))
  }

  /**
   The dense row-major array of the whole selection, as its elements in order.
   One failing cell fails the read.
   */
  function Materialize(plan: ReadPlan, elemSize: nat, file: Bytes, decode: Decoder): Option<seq<Bytes>>
    requires Shaped(plan)
  {
    var count := Product(plan.selShape);
    if forall p | 0 <= p < count :: ElementAt(plan, elemSize, file, decode, p).Some? then
      Some(seq(count, p requires 0 <= p < count => ElementAt(plan, elemSize, file, decode, p).value))
    else
      None
  }

  /** The element of every selected cell sits at its row-major rank. */
  lemma MaterializeAt(plan: ReadPlan, elemSize: nat, file: Bytes, decode: Decoder, cell: seq<nat>)
    requires Shaped(plan) && InBox(plan.selShape, cell)
    requires Materialize(plan, elemSize, file, decode).Some?
    ensures Rank(plan.selShape, cell) < |Materialize(plan, elemSize, file, decode).value|
    ensures ReadElement(plan, elemSize, file, decode, cell)
         == Some(Materialize(plan, elemSize, file, decode).value[Rank(plan.selShape, cell)])
  {
    UnrankRank(plan.selShape, cell);
    var p := Rank(plan.selShape, cell);
    assert ElementAt(plan, elemSize, file, decode, p).Some?;
  }

  lemma Scale(a: nat, b: nat, c: nat)
    requires a + 1 <= b
    ensures a * c + c <= b * c
  {
    MulMonotone(a + 1, b, c);
  }

  /** On one axis, a coordinate inside the dataset is inside the extent of its tile. */
  lemma LocalFits(datasetLen: nat, chunkLen: nat, extent: nat, x: nat)
    requires chunkLen > 0 && x < datasetLen
    requires ClippedExtent(datasetLen, chunkLen, TileIndex(x, chunkLen)) <= extent
    ensures TileOffset(x, chunkLen) < extent
  {
    TileSplit(x, chunkLen);
  }

  /** On a well-formed plan every selected cell has a record and lies inside the record's extent. */
  lemma CellIsStored(plan: ReadPlan, elemSize: nat, cell: seq<nat>)
    requires WellFormed(plan, elemSize) && InBox(plan.selShape, cell)
    ensures var k := FindChunk(plan.chunks, TileOf(plan, cell));
            k < |plan.chunks| && InBox(plan.chunks[k].extent, LocalIndex(plan, cell))
  {
    var tile := TileOf(plan, cell);
    assert CellIsListed(plan, cell) && CellInDataset(plan, cell);
    var k := FindChunk(plan.chunks, tile);
    var extent := plan.chunks[k].extent;
    assert DescribesTile(plan, plan.chunks[k], elemSize);
    forall i | 0 <= i < |extent|
      ensures LocalIndex(plan, cell)[i] < extent[i]
    {
      assert Coordinate(plan, cell, i) < plan.datasetShape[i];
      LocalFits(plan.datasetShape[i], plan.chunkShape[i], extent[i], Coordinate(plan, cell, i));
    }
  }
}
