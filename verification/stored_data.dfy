/**
 Reading back the dataset that a file stores. The dataset is a function from its cells to their
 elements; the file stores it tile by tile, and a selection takes every `step`-th cell.
 */
module StoredData {
  import opened Wrappers
  import opened RowMajor
  import opened ReadPlans
  import opened ZeroCopy
  import opened SlabGeometry
  import opened ReadNumpy

  /** The element of every dataset cell, by its coordinates. */
  type Dataset = seq<nat> -> Bytes

  /** `payload` has the cell `x` at the row-major place of its remainders by the chunk lengths. */
  ghost predicate HasCell(plan: ReadPlan, elemSize: nat, data: Dataset, extent: seq<nat>, payload: Bytes, x: seq<nat>)
    requires Shaped(plan) && |x| == |extent| == |plan.chunkShape|
  {
    var at := elemSize * Rank(extent, seq(|x|, i requires 0 <= i < |x| => x[i] % plan.chunkShape[i]));
    at + elemSize <= |payload| && payload[at..at + elemSize] == data(x)
  }

  /** The cell `x` of the dataset lies in the tile of the record: the quotients are its index. */
  ghost predicate InTile(plan: ReadPlan, chunk: ChunkRecord, x: seq<nat>)
    requires Shaped(plan)
  {
    && InBox(plan.datasetShape, x) && |chunk.index| == |chunk.extent| == |x|
    && forall i :: 0 <= i < |x| ==> x[i] / plan.chunkShape[i] == chunk.index[i]
  }

  /** `payload` has every dataset cell of the record's tile. */
  ghost predicate HasTile(plan: ReadPlan, elemSize: nat, data: Dataset, chunk: ChunkRecord, payload: Bytes)
    requires Shaped(plan)
  {
    forall x {:trigger InTile(plan, chunk, x)} | InTile(plan, chunk, x) ::
      HasCell(plan, elemSize, data, chunk.extent, payload, x)
  }

  /** The stored bytes of the record lie in the file and are its tile, as they are or decoded. */
  ghost predicate StoresTile(
    plan: ReadPlan, elemSize: nat, file: Bytes, decode: Decoder, data: Dataset, chunk: ChunkRecord)
    requires Shaped(plan)
  {
    && chunk.payloadOffset + chunk.storedLen <= |file|
    && var stored := file[chunk.payloadOffset..chunk.payloadOffset + chunk.storedLen];
       if chunk.codec == Raw && chunk.storedLen == chunk.rawLen then
         HasTile(plan, elemSize, data, chunk, stored)
       else
         decode(chunk, stored).Some? && HasTile(plan, elemSize, data, chunk, decode(chunk, stored).value)
  }

  ghost predicate Stores(plan: ReadPlan, elemSize: nat, file: Bytes, decode: Decoder, data: Dataset)
    requires Shaped(plan)
  {
    forall k :: 0 <= k < |plan.chunks| ==> StoresTile(plan, elemSize, file, decode, data, plan.chunks[k])
  }

  /** The dataset cell that a strided selection takes for `cell`. */
  lemma CellCoordinates(plan: ReadPlan, elemSize: nat, cell: seq<nat>) returns (x: seq<nat>)
    requires WellFormed(plan, elemSize) && InBox(plan.selShape, cell)
    ensures x == seq(|cell|, i requires 0 <= i < |cell| => plan.start[i] + cell[i] * plan.step[i])
    ensures InBox(plan.datasetShape, x)
    ensures TileOf(plan, cell) == seq(|x|, i requires 0 <= i < |x| => x[i] / plan.chunkShape[i])
    ensures LocalIndex(plan, cell) == seq(|x|, i requires 0 <= i < |x| => x[i] % plan.chunkShape[i])
  {
    x := seq(|cell|, i requires 0 <= i < |cell| => plan.start[i] + cell[i] * plan.step[i]);
    assert CellInDataset(plan, cell);
    forall i | 0 <= i < |x|
      ensures x[i] < plan.datasetShape[i]
      ensures TileOf(plan, cell)[i] == x[i] / plan.chunkShape[i]
      ensures LocalIndex(plan, cell)[i] == x[i] % plan.chunkShape[i]
    {
      assert Coordinate(plan, cell, i) == x[i];
      TileIsDivision(x[i], plan.chunkShape[i]);
    }
  }

  /** The reader finds the element of every selected cell. */
  lemma ReadsCell(plan: ReadPlan, elemSize: nat, file: Bytes, decode: Decoder, data: Dataset, cell: seq<nat>)
    requires WellFormed(plan, elemSize) && Stores(plan, elemSize, file, decode, data) && InBox(plan.selShape, cell)
    ensures ReadElement(plan, elemSize, file, decode, cell)
         == Some(data(seq(|cell|, i requires 0 <= i < |cell| => plan.start[i] + cell[i] * plan.step[i])))
  {
    var x := CellCoordinates(plan, elemSize, cell);
    CellIsStored(plan, elemSize, cell);
    var k := FindChunk(plan.chunks, TileOf(plan, cell));
    var c := plan.chunks[k];
    assert StoresTile(plan, elemSize, file, decode, data, c);
    assert InTile(plan, c, x);
    assert HasCell(plan, elemSize, data, c.extent, Payload(file, c, decode).value, x);
  }

  /**
   A read returns the dataset: on every well-formed plan, whatever the rank, shapes, steps and
   codecs, element `Rank(selShape, cell)` of the dense array is the dataset's element at
   `start + cell * step`.
   */
  lemma MaterializesDataset(plan: ReadPlan, elemSize: nat, file: Bytes, decode: Decoder, data: Dataset)
    requires WellFormed(plan, elemSize) && Stores(plan, elemSize, file, decode, data)
    ensures Materialize(plan, elemSize, file, decode).Some?
    ensures |Materialize(plan, elemSize, file, decode).value| == Product(plan.selShape)
    ensures forall cell {:trigger Rank(plan.selShape, cell)} | InBox(plan.selShape, cell) ::
      Rank(plan.selShape, cell) < Product(plan.selShape)
      && Materialize(plan, elemSize, file, decode).value[Rank(plan.selShape, cell)]
         == data(seq(|cell|, i requires 0 <= i < |cell| => plan.start[i] + cell[i] * plan.step[i]))
  {
    forall p | 0 <= p < Product(plan.selShape)
      ensures ElementAt(plan, elemSize, file, decode, p).Some?
    {
      ReadsCell(plan, elemSize, file, decode, data, Unrank(plan.selShape, p));
    }
    forall cell | InBox(plan.selShape, cell)
      ensures Rank(plan.selShape, cell) < Product(plan.selShape)
      ensures Materialize(plan, elemSize, file, decode).value[Rank(plan.selShape, cell)]
           == data(seq(|cell|, i requires 0 <= i < |cell| => plan.start[i] + cell[i] * plan.step[i]))
    {
      ReadsCell(plan, elemSize, file, decode, data, cell);
      MaterializeAt(plan, elemSize, file, decode, cell);
    }
  }

  /** A file that stores the dataset holds every payload, so the wrapped sum misleads nobody. */
  lemma StoredIsNotMisled(
    plan: ReadPlan, elemSize: nat, file: Bytes, decode: Decoder, data: Dataset, usizeLimit: nat)
    requires WellFormed(plan, elemSize) && Stores(plan, elemSize, file, decode, data)
    ensures !Misled(plan, elemSize, file, usizeLimit)
  {
    if Accepts(plan, elemSize, usizeLimit) {
      assert StoresTile(plan, elemSize, file, decode, data, plan.chunks[|plan.chunks| - 1]);
    }
  }

  /** The read a caller sees returns the dataset's elements, mapped or copied. */
  method ReadDataset(
    plan: ReadPlan, elemSize: nat, file: Bytes, decode: Decoder, ghost data: Dataset, usizeLimit: nat)
    returns (r: Result<seq<Bytes>, ReadError>)
    requires WellFormed(plan, elemSize) && Stores(plan, elemSize, file, decode, data)
    requires |file| < usizeLimit <= U64_LIMIT
    ensures r.Ok? && |r.value| == Product(plan.selShape)
    ensures forall cell {:trigger Rank(plan.selShape, cell)} | InBox(plan.selShape, cell) ::
      Rank(plan.selShape, cell) < |r.value|
      && r.value[Rank(plan.selShape, cell)]
         == data(seq(|cell|, i requires 0 <= i < |cell| => plan.start[i] + cell[i] * plan.step[i]))
  {
    MaterializesDataset(plan, elemSize, file, decode, data);
    StoredIsNotMisled(plan, elemSize, file, decode, data, usizeLimit);
    r := Read(plan, elemSize, file, decode, usizeLimit);
  }
}
