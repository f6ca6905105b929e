/** What a loaded table holds, told from its rows of fields. */
module TableMeaning {
  import opened Wrappers
  import opened Decimals
  import opened Tokens
  import opened Columns
  import opened Tables
  import opened ColumnMeaning
  import NoteLength
  import NoteReader

  // ----- rows and names -----

  /** `kept` takes from `rows` the places in order, and no other place holds a non-empty row. */
  ghost predicate Takes(rows: seq<Row>, kept: seq<Row>, places: seq<nat>) {
    && |places| == |kept|
    && (forall k :: 0 <= k < |places| ==> places[k] < |rows| && kept[k] == rows[places[k]] != [])
    && (forall k, l :: 0 <= k < l < |places| ==> places[k] < places[l])
    && (forall i {:trigger Listed(places, i)} | 0 <= i < |rows| && rows[i] != [] :: Listed(places, i))
  }

  ghost predicate Listed(places: seq<nat>, i: nat) {
    i in places
  }

  function Later(places: seq<nat>): (shifted: seq<nat>)
    ensures |shifted| == |places| && forall k :: 0 <= k < |places| ==> shifted[k] == places[k] + 1
  {
    seq(|places|, k requires 0 <= k < |places| => places[k] + 1)
  }

  lemma LaterHas(places: seq<nat>, i: nat)
    requires i in places
    ensures i + 1 in Later(places)
  {
    var k :| 0 <= k < |places| && places[k] == i;
    assert Later(places)[k] == i + 1;
  }

  lemma LaterCovers(all: seq<Row>, kept: seq<Row>, places: seq<nat>, i: nat)
    requires all != [] && Takes(all[1..], kept, places) && 1 <= i < |all| && all[i] != []
    ensures Listed(Later(places), i)
  {
    assert all[1..][i - 1] == all[i];
    assert Listed(places, i - 1);
    LaterHas(places, i - 1);
  }

  lemma SkipsFirst(all: seq<Row>, kept: seq<Row>, places: seq<nat>)
    requires all != [] && Takes(all[1..], kept, places) && all[0] == []
    ensures Takes(all, kept, Later(places))
  {
    forall i | 0 <= i < |all| && all[i] != []
      ensures Listed(Later(places), i)
    {
      LaterCovers(all, kept, places, i);
    }
  }

  function FirstAndLater(places: seq<nat>): (now: seq<nat>)
    ensures |now| == |places| + 1 && now[0] == 0
    ensures forall k :: 1 <= k < |now| ==> now[k] == places[k - 1] + 1
    ensures forall i :: i in Later(places) ==> i in now
  {
    [0] + Later(places)
  }

  lemma FirstValue(all: seq<Row>, kept: seq<Row>, places: seq<nat>, k: nat)
    requires all != [] && Takes(all[1..], kept, places) && all[0] != [] && k <= |places|
    ensures var now := FirstAndLater(places);
            now[k] < |all| && ([all[0]] + kept)[k] == all[now[k]] != []
  {
    if k > 0 {
      assert all[1..][places[k - 1]] == all[places[k - 1] + 1];
      assert ([all[0]] + kept)[k] == kept[k - 1];
    }
  }

  lemma FirstListed(all: seq<Row>, kept: seq<Row>, places: seq<nat>, i: nat)
    requires all != [] && Takes(all[1..], kept, places) && i < |all| && all[i] != []
    ensures Listed(FirstAndLater(places), i)
  {
    if i == 0 {
      assert FirstAndLater(places)[0] in FirstAndLater(places);
    } else {
      LaterCovers(all, kept, places, i);
    }
  }

  lemma FirstIncreases(rows: seq<Row>, kept: seq<Row>, places: seq<nat>, k: nat, l: nat)
    requires Takes(rows, kept, places) && k < l <= |places|
    ensures FirstAndLater(places)[k] < FirstAndLater(places)[l]
  {
  }

  lemma TakesFirst(all: seq<Row>, kept: seq<Row>, places: seq<nat>)
    requires all != [] && Takes(all[1..], kept, places) && all[0] != []
    ensures Takes(all, [all[0]] + kept, FirstAndLater(places))
  {
    var now := FirstAndLater(places);
    forall k: nat | k < |now|
      ensures now[k] < |all| && ([all[0]] + kept)[k] == all[now[k]] != []
    {
      FirstValue(all, kept, places, k);
    }
    forall k: nat, l: nat | k < l < |now|
      ensures now[k] < now[l]
    {
      FirstIncreases(all[1..], kept, places, k, l);
    }
    forall i: nat | i < |all| && all[i] != []
      ensures Listed(now, i)
    {
      FirstListed(all, kept, places, i);
    }
  }

  lemma FirstRow(rows: seq<Row>)
    requires rows != []
    ensures rows[0] == [] ==> NonEmptyRows(rows) == NonEmptyRows(rows[1..])
    ensures rows[0] != [] ==> NonEmptyRows(rows) == [rows[0]] + NonEmptyRows(rows[1..])
  {
  }

  /** The rows that count are the non-empty ones, in their order. */
  lemma {:induction false} RowsKept(rows: seq<Row>) returns (places: seq<nat>)
    ensures Takes(rows, NonEmptyRows(rows), places)
  {
    if rows == [] {
      places := [];
    } else {
      var rest := RowsKept(rows[1..]);
      FirstRow(rows);
      if rows[0] == [] {
        SkipsFirst(rows, NonEmptyRows(rows[1..]), rest);
        places := Later(rest);
      } else {
        TakesFirst(rows, NonEmptyRows(rows[1..]), rest);
        places := FirstAndLater(rest);
      }
    }
  }

  /** The first field of a row that is text or refused, if there is one, settles whether it is a header. */
  lemma {:induction false} Settled<F>(lib: FloatLib<F>, row: Row) returns (i: nat)
    ensures i <= |row|
    ensures forall k :: 0 <= k < i ==> !Classify(lib, row[k]).Text? && !Classify(lib, row[k]).Refused?
    ensures i == |row| ==> HoldsText(lib, row) == Ok(false)
    ensures i < |row| ==> Classify(lib, row[i]).Text? || Classify(lib, row[i]).Refused?
    ensures i < |row| ==>
      HoldsText(lib, row) == if Classify(lib, row[i]).Text? then Ok(true) else Err(IntegerTooLong)
  {
    if row == [] {
      i := 0;
    } else if Classify(lib, row[0]).Text? || Classify(lib, row[0]).Refused? {
      i := 0;
    } else {
      var rest := Settled(lib, row[1..]);
      i := rest + 1;
      forall k | 0 <= k < i
        ensures !Classify(lib, row[k]).Text? && !Classify(lib, row[k]).Refused?
      {
        assert k > 0 ==> row[1..][k - 1] == row[k];
      }
    }
  }

  /**
   The first row is a header exactly when some field is text and no refused token stands before
   it, and an error exactly when some token is refused and no text stands before it.
   */
  lemma HeaderMeans<F>(lib: FloatLib<F>, row: Row)
    ensures HoldsText(lib, row) == Ok(true)
       <==> exists i :: 0 <= i < |row| && Classify(lib, row[i]).Text?
                        && forall k :: 0 <= k < i ==> !Classify(lib, row[k]).Refused?
    ensures HoldsText(lib, row).Err?
       <==> exists i :: 0 <= i < |row| && Classify(lib, row[i]).Refused?
                        && forall k :: 0 <= k < i ==> !Classify(lib, row[k]).Text?
    ensures HoldsText(lib, row).Err? ==> HoldsText(lib, row).error == IntegerTooLong
  {
    var i := Settled(lib, row);
  }

  /** A header field names its column unless it is blank; the others are named `col` and their position. */
  lemma NamesMean(first: Row, header: bool, i: nat)
    requires i < |first|
    ensures Names(first, header)[i] == if header && Trim(first[i]) != "" then Trim(first[i]) else "col" + Decimal(i)
  {
  }

  // ----- accepted tables -----

  /** Every refused token has a text and a number above it in its column. */
  ghost predicate ColumnReadable<F>(lib: FloatLib<F>, rows: seq<Row>, j: nat)
    requires forall i :: 0 <= i < |rows| ==> j < |rows[i]|
  {
    forall i :: 0 <= i < |rows| && Classify(lib, rows[i][j]).Refused? ==>
      && (exists k :: 0 <= k < i && Classify(lib, rows[k][j]).Text?)
      && (exists k :: 0 <= k < i && (Classify(lib, rows[k][j]).Int? || Classify(lib, rows[k][j]).Float?))
  }

  /**
   A table is accepted exactly when the names differ, every row has one field per name, and every
   refused token has a text and a number above it in its column.
   */
  lemma AcceptedMeans<F>(lib: FloatLib<F>, names: seq<string>, rows: seq<Row>)
    ensures Accepted(lib, names, rows)
       <==> (forall i, j :: 0 <= i < j < |names| ==> names[i] != names[j])
            && (forall i :: 0 <= i < |rows| ==> |rows[i]| == |names|)
            && forall j :: 0 <= j < |names| ==> ColumnReadable(lib, rows, j)
  {
    if forall i :: 0 <= i < |rows| ==> |rows[i]| == |names| {
      forall j | 0 <= j < |names|
        ensures Readable(CellsOf(lib, FieldsOf(rows, j))) <==> ColumnReadable(lib, rows, j)
      {
        ReadableColumn(lib, rows, j);
      }
    }
  }

  lemma ReadableColumn<F>(lib: FloatLib<F>, rows: seq<Row>, j: nat)
    requires forall i :: 0 <= i < |rows| ==> j < |rows[i]|
    ensures Readable(CellsOf(lib, FieldsOf(rows, j))) <==> ColumnReadable(lib, rows, j)
  {
    assert CellsOf(lib, FieldsOf(rows, j)) == ColumnCells(lib, rows, j);
    ReadableMeans(ColumnCells(lib, rows, j));
  }

  // ----- what is stored -----

  /** One element per row, element `i` read from cell `i`. */
  ghost predicate Stored<F>(lib: FloatLib<F>, data: Data<F>, cells: seq<Cell<F>>) {
    match data
    case IntData(ints) =>
      |ints| == |cells| && forall i :: 0 <= i < |cells| ==> cells[i] == Int(ints[i])
    case FloatData(floats) =>
      |floats| == |cells| && forall i :: 0 <= i < |cells| ==> FloatIs(lib, floats[i], cells[i])
    case LabelData(values, note) =>
      |values| == |cells| && NoteReader.ReadNote(note).Some? && NoteReader.ReadNote(note).value.1 == -1
      && forall i :: 0 <= i < |cells| ==> CodeIs(NoteReader.ReadNote(note).value.0, values[i], cells[i])
  }

  lemma NumbersStored<F>(lib: FloatLib<F>, cells: seq<Cell<F>>)
    requires Readable(cells) && ImportOf(lib, cells).value.Some? && !KindOf(cells).CategoryKind?
    ensures Stored(lib, ImportOf(lib, cells).value.value, cells)
  {
    if KindOf(cells).FloatKind? {
      NoneRefusedHere(cells);
      FloatsAre(lib, cells);
    } else {
      NoneRefusedHere(cells);
      KindMeans(cells);
    }
  }

  lemma LabelsStored<F>(lib: FloatLib<F>, cells: seq<Cell<F>>)
    requires Readable(cells) && ImportOf(lib, cells).value.Some? && KindOf(cells).CategoryKind?
    ensures Stored(lib, ImportOf(lib, cells).value.value, cells)
  {
    LabelColumnReadsBack(lib, cells);
  }

  /** Every kept column stores its cells. */
  lemma KeptIsStored<F>(lib: FloatLib<F>, cells: seq<Cell<F>>)
    requires Readable(cells) && ImportOf(lib, cells).value.Some?
    ensures Stored(lib, ImportOf(lib, cells).value.value, cells)
  {
    if KindOf(cells).CategoryKind? {
      LabelsStored(lib, cells);
    } else {
      NumbersStored(lib, cells);
    }
  }

  /** The classified fields of a column, row by row. */
  function ColumnCells<F>(lib: FloatLib<F>, rows: seq<Row>, j: nat): (cells: seq<Cell<F>>)
    requires forall i :: 0 <= i < |rows| ==> j < |rows[i]|
    ensures |cells| == |rows| && forall i :: 0 <= i < |rows| ==> cells[i] == Classify(lib, rows[i][j])
  {
    seq(|rows|, i requires 0 <= i < |rows| => Classify(lib, rows[i][j]))
  }

  lemma ColumnFinished<F>(lib: FloatLib<F>, names: seq<string>, rows: seq<Row>, j: nat)
    requires Accepted(lib, names, rows) && j < |names|
    ensures Readable(ColumnCells(lib, rows, j))
    ensures ImportOf(lib, ColumnCells(lib, rows, j)) == Ok(Finished(lib, rows, |names|)[j])
  {
    assert CellsOf(lib, FieldsOf(rows, j)) == ColumnCells(lib, rows, j);
  }

  /**
   The imports of an accepted table: exactly the columns that are kept, in header order, each
   under its own name, and each stores exactly the classified fields of its column.
   */
  lemma TableStores<F>(lib: FloatLib<F>, names: seq<string>, rows: seq<Row>) returns (positions: seq<nat>)
    requires Accepted(lib, names, rows)
    ensures |positions| == |Emitted(lib, names, rows)|
    ensures forall k, l :: 0 <= k < l < |positions| ==> positions[k] < positions[l]
    ensures forall k :: 0 <= k < |positions| ==>
      positions[k] < |names|
      && Emitted(lib, names, rows)[k].name == names[positions[k]]
      && Stored(lib, Emitted(lib, names, rows)[k].data, ColumnCells(lib, rows, positions[k]))
    ensures forall j :: 0 <= j < |names| ==>
      (j in positions <==> ImportOf(lib, ColumnCells(lib, rows, j)) != Ok(None))
  {
    var finished := Finished(lib, rows, |names|);
    positions := KeptPositions(finished, |names|);
    PositionsComplete(finished, |names|);
    forall j | 0 <= j < |names|
      ensures j in positions <==> ImportOf(lib, ColumnCells(lib, rows, j)) != Ok(None)
      ensures finished[j].Some? ==> Stored(lib, finished[j].value, ColumnCells(lib, rows, j))
    {
      ColumnFinished(lib, names, rows, j);
      if finished[j].Some? {
        KeptIsStored(lib, ColumnCells(lib, rows, j));
      }
    }
  }
}
