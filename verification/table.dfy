/** Loading a delimited table: a header, then one column machine per column. */
module Tables {
  import opened Wrappers
  import opened Decimals
  import opened Tokens
  import opened Columns
  import CategoryNote
  import NoteLength
  import Categories

  datatype TableError = DuplicateName(name: string) | RaggedRow(row: nat) | IntegerTooLong

  datatype Import<F> = Import(name: string, data: Data<F>)

  type Row = seq<string>

  // ----- the specification, column by column -----

  function NonEmptyRows(rows: seq<Row>): (r: seq<Row>)
    ensures forall i :: 0 <= i < |r| ==> r[i] != []
  {
    if rows == [] then []
    else (if rows[0] == [] then [] else [rows[0]]) + NonEmptyRows(rows[1..])
  }

  /** Whether the row holds text; cells are read left to right up to the first text. */
  function HoldsText<F>(lib: FloatLib<F>, row: Row): Result<bool, TableError> {
    if row == [] then Ok(false)
    else match Classify(lib, row[0])
      case Text(_) => Ok(true)
      case Refused => Err(IntegerTooLong)
      case _ => HoldsText(lib, row[1..])
  }

  function Generated(index: nat): string {
    "col" + Decimal(index)
  }

  function HeaderName(row: Row, index: nat): string
    requires index < |row|
  {
    if Trim(row[index]) != "" then Trim(row[index]) else Generated(index)
  }

  /** Column names: the header if the first row is one, generated names otherwise. */
  function Names(first: Row, header: bool): (names: seq<string>)
    ensures |names| == |first|
  {
    seq(|first|, i requires 0 <= i < |first| => if header then HeaderName(first, i) else Generated(i))
  }

  ghost predicate Rectangular(rows: seq<Row>, width: nat) {
    forall i :: 0 <= i < |rows| ==> |rows[i]| == width
  }

  /** The fields of column `j`. */
  function FieldsOf(rows: seq<Row>, j: nat): (fields: seq<string>)
    requires forall i :: 0 <= i < |rows| ==> j < |rows[i]|
    ensures |fields| == |rows|
  {
    seq(|rows|, i requires 0 <= i < |rows| => rows[i][j])
  }

  /** What each column is imported as. */
  function Finished<F>(lib: FloatLib<F>, rows: seq<Row>, width: nat): (finished: seq<Option<Data<F>>>)
    requires forall i :: 0 <= i < |rows| ==> |rows[i]| == width
    ensures |finished| == width
  {
    seq(width, j requires 0 <= j < width => FinishOf(lib, CellsOf(lib, FieldsOf(rows, j))))
  }

  /** Positions of the kept columns among the first `n`, in header order. */
  function KeptPositions<F>(finished: seq<Option<Data<F>>>, n: nat): (positions: seq<nat>)
    requires n <= |finished|
    ensures forall k :: 0 <= k < |positions| ==> positions[k] < n && finished[positions[k]].Some?
  {
    if n == 0 then
      []
    else
      KeptPositions(finished, n - 1) + (if finished[n - 1].Some? then [n - 1] else [])
  }

  /** The kept columns among the first `n`. */
  function Collect<F>(names: seq<string>, finished: seq<Option<Data<F>>>, n: nat): seq<Import<F>>
    requires n <= |names| == |finished|
  {
    var positions := KeptPositions(finished, n);
    seq(|positions|, k requires 0 <= k < |positions| =>
      Import(names[positions[k]], finished[positions[k]].value))
  }

  /** The imports of an accepted table. */
  function Emitted<F>(lib: FloatLib<F>, names: seq<string>, rows: seq<Row>): seq<Import<F>>
    requires forall i :: 0 <= i < |rows| ==> |rows[i]| == |names|
  {
    Collect(names, Finished(lib, rows, |names|), |names|)
  }

  /** Every row has `width` fields and every column can be read. */
  ghost predicate AllReadable<F>(lib: FloatLib<F>, rows: seq<Row>, width: nat) {
    && Rectangular(rows, width)
    && forall j :: 0 <= j < width ==> Readable(CellsOf(lib, FieldsOf(rows, j)))
  }

  ghost predicate Accepted<F>(lib: FloatLib<F>, names: seq<string>, rows: seq<Row>) {
    && NoteLength.Distinct(names)
    && AllReadable(lib, rows, |names|)
  }

  // ----- the row-by-row loader -----

  /** What a column machine has been pushed. */
  type Machine<F> = seq<Cell<F>>

  function Accepts<F>(lib: FloatLib<F>, machine: Machine<F>, field: string): bool {
    KindOf(machine).SkipKind? || !Classify(lib, field).Refused?
  }

  /** The label dictionaries of the machines. */
  ghost function Dictionaries<F>(columns: seq<Column<F>>): set<Categories.Category> {
    set j | 0 <= j < |columns| :: columns[j].category
  }

  /** No two columns share a machine or a dictionary. */
  ghost predicate Separate<F>(columns: seq<Column<F>>) {
    forall i, j :: 0 <= i < j < |columns| ==>
      columns[i] != columns[j] && columns[i].category != columns[j].category
  }

  ghost predicate LiveColumn<F>(lib: FloatLib<F>, column: Column<F>)
    reads column, column.category
  {
    column.lib == lib && column.Valid()
  }

  ghost predicate Live<F>(lib: FloatLib<F>, columns: seq<Column<F>>)
    reads columns, Dictionaries(columns)
  {
    && Separate(columns)
    && forall j {:trigger LiveColumn(lib, columns[j])} | 0 <= j < |columns| :: LiveColumn(lib, columns[j])
  }

  /** `machines` is what the columns have been pushed. */
  ghost predicate Shows<F>(columns: seq<Column<F>>, machines: seq<Machine<F>>)
    reads columns
  {
    |machines| == |columns| && forall j :: 0 <= j < |columns| ==> machines[j] == columns[j].seen
  }

  /** Push one field; no other column changes. */
  method PushField<F>(lib: FloatLib<F>, columns: seq<Column<F>>, j: nat, field: string) returns (ok: bool)
    requires j < |columns| && Live(lib, columns)
    modifies columns[j], columns[j].category
    ensures Live(lib, columns)
    ensures ok <==> Accepts(lib, old(columns[j].seen), field)
    ensures ok ==> columns[j].seen == old(columns[j].seen) + [Classify(lib, field)]
    ensures forall k :: 0 <= k < |columns| && k != j ==> columns[k].seen == old(columns[k].seen)
  {
    assert LiveColumn(lib, columns[j]);
    ok := columns[j].Push(field);
    forall k | 0 <= k < |columns| && k != j
      ensures LiveColumn(lib, columns[k])
    {
      assert columns[k] != columns[j] && columns[k].category != columns[j].category;
      assert old(LiveColumn(lib, columns[k]));
    }
  }

  /** Push one row, left to right; the first refused field stops the load. */
  method PushRow<F>(lib: FloatLib<F>, columns: seq<Column<F>>, row: Row, ghost machines: seq<Machine<F>>)
    returns (ok: bool, ghost pushed: seq<Machine<F>>)
    requires |row| == |columns| && Live(lib, columns) && Shows(columns, machines)
    modifies columns, Dictionaries(columns)
    ensures Live(lib, columns) && Shows(columns, pushed)
    ensures ok <==> forall j :: 0 <= j < |row| ==> Accepts(lib, machines[j], row[j])
    ensures ok ==> forall j :: 0 <= j < |row| ==> pushed[j] == machines[j] + [Classify(lib, row[j])]
  {
    pushed := machines;
    for j := 0 to |row|
      invariant Live(lib, columns) && Shows(columns, pushed)
      invariant forall k :: 0 <= k < j ==> Accepts(lib, machines[k], row[k])
      invariant forall k :: 0 <= k < j ==> pushed[k] == machines[k] + [Classify(lib, row[k])]
      invariant forall k :: j <= k < |row| ==> pushed[k] == machines[k]
    {
      ok := PushField(lib, columns, j, row[j]);
      pushed := pushed[j := columns[j].seen];
      if !ok {
        return;
      }
    }
    ok := true;
  }

  lemma OneMoreRow<F>(lib: FloatLib<F>, rows: seq<Row>, n: nat, j: nat)
    requires n < |rows| && forall i :: 0 <= i <= n ==> j < |rows[i]|
    ensures CellsOf(lib, FieldsOf(rows[..n + 1], j))
         == CellsOf(lib, FieldsOf(rows[..n], j)) + [Classify(lib, rows[n][j])]
  {
  }

  /** Rows `0 .. n` have been pushed: every machine holds its column of them. */
  ghost predicate Holds<F>(lib: FloatLib<F>, machines: seq<Machine<F>>, rows: seq<Row>) {
    && Rectangular(rows, |machines|)
    && forall j :: 0 <= j < |machines| ==> HoldsColumn(lib, machines[j], rows, j)
  }

  ghost predicate HoldsColumn<F>(lib: FloatLib<F>, machine: Machine<F>, rows: seq<Row>, j: nat)
    requires forall i :: 0 <= i < |rows| ==> j < |rows[i]|
  {
    machine == CellsOf(lib, FieldsOf(rows, j)) && Readable(machine)
  }

  lemma RowHolds<F>(
    lib: FloatLib<F>, machines: seq<Machine<F>>, rows: seq<Row>, n: nat, pushed: seq<Machine<F>>)
    requires n < |rows| && Holds(lib, machines, rows[..n])
    requires |rows[n]| == |machines| == |pushed|
    requires forall j :: 0 <= j < |rows[n]| ==> Accepts(lib, machines[j], rows[n][j])
    requires forall j :: 0 <= j < |rows[n]| ==> pushed[j] == machines[j] + [Classify(lib, rows[n][j])]
    ensures Holds(lib, pushed, rows[..n + 1])
  {
    assert rows[..n + 1] == rows[..n] + [rows[n]];
    assert forall i :: 0 <= i < n ==> rows[i] == rows[..n][i];
    assert Rectangular(rows[..n + 1], |pushed|);
    forall j | 0 <= j < |pushed|
      ensures HoldsColumn(lib, pushed[j], rows[..n + 1], j)
    {
      assert HoldsColumn(lib, machines[j], rows[..n], j);
      OneMoreRow(lib, rows, n, j);
      ReadableStep(machines[j], Classify(lib, rows[n][j]));
    }
  }

  /** A refused field makes its column unreadable. */
  lemma RefusedColumn<F>(lib: FloatLib<F>, machines: seq<Machine<F>>, rows: seq<Row>, n: nat, j: nat)
    requires n < |rows| && j < |machines| && Rectangular(rows, |machines|)
    requires Holds(lib, machines, rows[..n]) && !Accepts(lib, machines[j], rows[n][j])
    ensures !Readable(CellsOf(lib, FieldsOf(rows, j)))
  {
    assert HoldsColumn(lib, machines[j], rows[..n], j);
    var cells := CellsOf(lib, FieldsOf(rows, j));
    assert cells[..n] == machines[j];
    assert cells[n] == Classify(lib, rows[n][j]);
  }

  /** `names[at]` is the first name that occurs earlier in the list. */
  ghost predicate RepeatsFirst(names: seq<string>, at: nat) {
    at < |names| && names[at] in names[..at] && NoteLength.Distinct(names[..at])
  }

  /** Position of the first name that occurs earlier in the list, or the length of the list. */
  method FindDuplicate(names: seq<string>) returns (at: nat)
    ensures at <= |names|
    ensures at < |names| ==> RepeatsFirst(names, at)
    ensures at == |names| <==> NoteLength.Distinct(names)
  {
    var seen: set<string> := {};
    for i := 0 to |names|
      invariant forall name :: name in seen <==> name in names[..i]
      invariant NoteLength.Distinct(names[..i])
    {
      if names[i] in seen {
        var k :| 0 <= k < i && names[..i][k] == names[i];
        return i;
      }
      assert names[..i + 1] == names[..i] + [names[i]];
      seen := seen + {names[i]};
    }
    assert names[..|names|] == names;
    return |names|;
  }

  /** Row `n` is the first that cannot be pushed, because of its width or of a refused field. */
  ghost predicate FailsAt<F>(lib: FloatLib<F>, rows: seq<Row>, width: nat, n: nat, error: TableError) {
    && n < |rows|
    && AllReadable(lib, rows[..n], width) && !AllReadable(lib, rows[..n + 1], width)
    && error == if |rows[n]| != width then RaggedRow(n + 1) else IntegerTooLong
  }

  lemma HeldIsReadable<F>(lib: FloatLib<F>, machines: seq<Machine<F>>, rows: seq<Row>)
    requires Holds(lib, machines, rows)
    ensures AllReadable(lib, rows, |machines|)
  {
    forall j | 0 <= j < |machines|
      ensures Readable(CellsOf(lib, FieldsOf(rows, j)))
    {
      assert HoldsColumn(lib, machines[j], rows, j);
    }
  }

  lemma PrefixReadable<F>(lib: FloatLib<F>, rows: seq<Row>, width: nat, n: nat)
    requires n <= |rows| && AllReadable(lib, rows, width)
    ensures AllReadable(lib, rows[..n], width)
  {
    forall j | 0 <= j < width
      ensures Readable(CellsOf(lib, FieldsOf(rows[..n], j)))
    {
      var cells := CellsOf(lib, FieldsOf(rows, j));
      ReadablePrefix(cells, n);
      assert CellsOf(lib, FieldsOf(rows[..n], j)) == cells[..n];
    }
  }

  lemma RaggedFails<F>(lib: FloatLib<F>, machines: seq<Machine<F>>, rows: seq<Row>, n: nat)
    requires n < |rows| && Holds(lib, machines, rows[..n]) && |rows[n]| != |machines|
    ensures FailsAt(lib, rows, |machines|, n, RaggedRow(n + 1))
    ensures !AllReadable(lib, rows, |machines|)
  {
    HeldIsReadable(lib, machines, rows[..n]);
    assert rows[..n + 1][n] == rows[n];
  }

  lemma RefusedFails<F>(lib: FloatLib<F>, machines: seq<Machine<F>>, rows: seq<Row>, n: nat, j: nat)
    requires n < |rows| && Holds(lib, machines, rows[..n])
    requires |rows[n]| == |machines| && j < |machines| && !Accepts(lib, machines[j], rows[n][j])
    ensures FailsAt(lib, rows, |machines|, n, IntegerTooLong)
    ensures !AllReadable(lib, rows, |machines|)
  {
    HeldIsReadable(lib, machines, rows[..n]);
    assert rows[..n + 1][..n] == rows[..n];
    if AllReadable(lib, rows[..n + 1], |machines|) {
      RefusedColumn(lib, machines, rows[..n + 1], n, j);
    }
    if AllReadable(lib, rows, |machines|) {
      PrefixReadable(lib, rows, |machines|, n + 1);
    }
  }

  ghost function NothingPushed<F>(width: nat): (machines: seq<Machine<F>>)
    ensures |machines| == width
  {
    seq(width, _ => [])
  }

  /** A machine for every column. */
  method NewColumns<F>(lib: FloatLib<F>, width: nat) returns (columns: seq<Column<F>>)
    ensures |columns| == width && Live(lib, columns) && fresh(columns) && fresh(Dictionaries(columns))
    ensures Shows(columns, NothingPushed(width))
  {
    columns := [];
    for j := 0 to width
      invariant |columns| == j && Live(lib, columns) && fresh(columns) && fresh(Dictionaries(columns))
      invariant forall k :: 0 <= k < j ==> columns[k].seen == []
    {
      var column := new Column(lib);
      assert LiveColumn(lib, column);
      LiveGrows(lib, columns, column);
      columns := columns + [column];
    }
  }

  lemma LiveGrows<F>(lib: FloatLib<F>, columns: seq<Column<F>>, column: Column<F>)
    requires Live(lib, columns) && LiveColumn(lib, column)
    requires column !in columns && column.category !in Dictionaries(columns)
    ensures Live(lib, columns + [column])
    ensures forall d :: d in Dictionaries(columns + [column]) ==> d in Dictionaries(columns) || d == column.category
  {
    var now := columns + [column];
    forall k | 0 <= k < |now|
      ensures LiveColumn(lib, now[k])
    {
      assert k < |columns| ==> LiveColumn(lib, columns[k]);
    }
    assert forall k :: 0 <= k < |columns| ==> columns[k].category in Dictionaries(columns);
  }

  /** Push every row; the error names the first that cannot be pushed. */
  method PushRows<F>(lib: FloatLib<F>, columns: seq<Column<F>>, rows: seq<Row>)
    returns (error: Option<TableError>, ghost machines: seq<Machine<F>>)
    requires Live(lib, columns) && Shows(columns, NothingPushed(|columns|))
    modifies columns, Dictionaries(columns)
    ensures Live(lib, columns) && Shows(columns, machines)
    ensures error.None? <==> AllReadable(lib, rows, |columns|)
    ensures error.None? ==> Holds(lib, machines, rows)
    ensures error.Some? ==> exists n: nat :: FailsAt(lib, rows, |columns|, n, error.value)
  {
    machines := NothingPushed(|columns|);
    assert rows[..0] == [];
    for n := 0 to |rows|
      invariant Live(lib, columns) && Shows(columns, machines) && Holds(lib, machines, rows[..n])
    {
      if |rows[n]| != |columns| {
        RaggedFails(lib, machines, rows, n);
        error := Some(RaggedRow(n + 1));
        return;
      }
      var ok;
      ghost var before := machines;
      ok, machines := PushRow(lib, columns, rows[n], before);
      if !ok {
        ghost var j :| 0 <= j < |columns| && !Accepts(lib, before[j], rows[n][j]);
        RefusedFails(lib, before, rows, n, j);
        error := Some(IntegerTooLong);
        return;
      }
      RowHolds(lib, before, rows, n, machines);
    }
    assert rows[..|rows|] == rows;
    HeldIsReadable(lib, machines, rows);
    error := None;
  }

  lemma CollectStep<F>(names: seq<string>, finished: seq<Option<Data<F>>>, j: nat)
    requires j < |names| == |finished|
    ensures Collect(names, finished, j + 1) == Collect(names, finished, j)
         + (if finished[j].Some? then [Import(names[j], finished[j].value)] else [])
  {
  }

  ghost predicate Finishes<F>(lib: FloatLib<F>, machine: Machine<F>, finished: Option<Data<F>>) {
    finished == FinishOf(lib, machine)
  }

  ghost predicate AllFinish<F>(lib: FloatLib<F>, machines: seq<Machine<F>>, finished: seq<Option<Data<F>>>) {
    && |finished| == |machines|
    && forall j {:trigger Finishes(lib, machines[j], finished[j])} | 0 <= j < |machines| ::
         Finishes(lib, machines[j], finished[j])
  }

  lemma HeldFinish<F>(lib: FloatLib<F>, machines: seq<Machine<F>>, rows: seq<Row>)
    requires Holds(lib, machines, rows)
    ensures AllFinish(lib, machines, Finished(lib, rows, |machines|))
  {
    forall j | 0 <= j < |machines|
      ensures Finishes(lib, machines[j], Finished(lib, rows, |machines|)[j])
    {
      assert HoldsColumn(lib, machines[j], rows, j);
    }
  }

  method FinishColumn<F>(
    lib: FloatLib<F>, columns: seq<Column<F>>, j: nat, ghost machines: seq<Machine<F>>,
    ghost expected: seq<Option<Data<F>>>)
    returns (finished: Option<Data<F>>)
    requires j < |columns| && Live(lib, columns) && Shows(columns, machines) && AllFinish(lib, machines, expected)
    ensures finished == expected[j]
  {
    assert LiveColumn(lib, columns[j]);
    assert Finishes(lib, machines[j], expected[j]);
    finished := columns[j].Finish();
  }

  /** Finish every column and keep what is imported, in header order. */
  method CollectImports<F>(
    lib: FloatLib<F>, names: seq<string>, columns: seq<Column<F>>, ghost machines: seq<Machine<F>>,
    ghost expected: seq<Option<Data<F>>>)
    returns (imports: seq<Import<F>>)
    requires |columns| == |names| && Live(lib, columns) && Shows(columns, machines)
    requires AllFinish(lib, machines, expected)
    ensures imports == Collect(names, expected, |names|)
  {
    imports := [];
    for j := 0 to |names|
      invariant Live(lib, columns) && Shows(columns, machines)
      invariant imports == Collect(names, expected, j)
    {
      CollectStep(names, expected, j);
      var finished := FinishColumn(lib, columns, j, machines, expected);
      if finished.Some? {
        imports := imports + [Import(names[j], finished.value)];
      }
    }
  }

  /** The whole import of a delimited table, from the rows of the reader on. */
  method LoadTable<F>(lib: FloatLib<F>, rows: seq<Row>) returns (r: Result<seq<Import<F>>, TableError>)
    ensures
      var kept := NonEmptyRows(rows);
      if kept == [] then
        r == Ok([])
      else
        match HoldsText(lib, kept[0])
        case Err(e) => r == Err(e)
        case Ok(header) =>
          var names, data := Names(kept[0], header), if header then kept[1..] else kept;
          if Accepted(lib, names, data) then
            r == Ok(Emitted(lib, names, data))
          else if !NoteLength.Distinct(names) then
            exists at: nat :: RepeatsFirst(names, at) && r == Err(DuplicateName(names[at]))
          else
            r.Err? && exists n: nat :: FailsAt(lib, data, |names|, n, r.error)
  {
    var kept := NonEmptyRows(rows);
    if kept == [] {
      return Ok([]);
    }
    var header := HoldsText(lib, kept[0]);
    if header.Err? {
      return Err(header.error);
    }
    var names := Names(kept[0], header.value);
    var data := if header.value then kept[1..] else kept;
    var duplicate := FindDuplicate(names);
    if duplicate < |names| {
      return Err(DuplicateName(names[duplicate]));
    }
    var columns := NewColumns(lib, |names|);
    var error;
    ghost var machines;
    error, machines := PushRows(lib, columns, data);
    if error.Some? {
      return Err(error.value);
    }
    HeldFinish(lib, machines, data);
    var imports := CollectImports(lib, names, columns, machines, Finished(lib, data, |names|));
    return Ok(imports);
  }

  // ----- what a loaded table holds -----

  /** Element `i` of a kept column is the value of cell `i`, and the column has one element per cell. */
  ghost predicate Denotes<F>(lib: FloatLib<F>, data: Data<F>, cells: seq<Cell<F>>) {
    match data
    case IntData(ints) =>
      |ints| == |cells| && forall i :: 0 <= i < |cells| ==> cells[i] == Int(ints[i])
    case FloatData(floats) =>
      |floats| == |cells| && forall i :: 0 <= i < |cells| ==>
        !cells[i].Text? && floats[i] == FloatOf(lib, cells[i])
    case LabelData(codes, note) =>
      && |codes| == |cells|
      && (forall i :: 0 <= i < |cells| ==> cells[i].Text? || cells[i].Blank?)
      && exists dictionary ::
           note == CategoryNote.Note(dictionary) && Categories.Decode(dictionary, codes) == Items(cells)
  }

  lemma KeptIsRead<F>(cells: seq<Cell<F>>)
    requires Readable(cells) && !KindOf(cells).SkipKind?
    ensures NoneRefused(cells)
  {
    forall i | 0 <= i < |cells|
      ensures !cells[i].Refused?
    {
      if cells[i].Refused? {
        SkipStays(cells, i);
      }
    }
  }

  /** Kept columns lose nothing: every value is the denotation of its cell. */
  lemma KeptDenotes<F>(lib: FloatLib<F>, cells: seq<Cell<F>>)
    requires Readable(cells) && FinishOf(lib, cells).Some?
    ensures Denotes(lib, FinishOf(lib, cells).value, cells)
  {
    KeptIsRead(cells);
    KindMeans(cells);
    var data := FinishOf(lib, cells).value;
    match data
    case IntData(ints) =>
    case FloatData(floats) =>
      NoText(cells);
    case LabelData(codes, note) =>
      LabelCodes(lib, cells);
      OnlyLabels(cells);
      Categories.DecodeValues(Items(cells));
      assert Categories.Decode(Categories.Dictionary(Items(cells)), codes) == Items(cells);
  }

  lemma NoText<F>(cells: seq<Cell<F>>)
    requires KindOf(cells).FloatKind?
    ensures forall i :: 0 <= i < |cells| ==> !cells[i].Text?
  {
  }

  lemma OnlyLabels<F>(cells: seq<Cell<F>>)
    requires KindOf(cells).CategoryKind? && NoneRefused(cells)
    ensures forall i :: 0 <= i < |cells| ==> cells[i].Text? || cells[i].Blank?
  {
    forall i | 0 <= i < |cells|
      ensures cells[i].Text? || cells[i].Blank?
    {
      assert !cells[i].Refused?;
    }
  }

  /** Kept positions increase and miss no kept column. */
  lemma {:induction false} PositionsComplete<F>(finished: seq<Option<Data<F>>>, n: nat)
    requires n <= |finished|
    ensures var positions := KeptPositions(finished, n);
            (forall k, l :: 0 <= k < l < |positions| ==> positions[k] < positions[l])
            && forall j :: 0 <= j < n && finished[j].Some? ==> j in positions
  {
    if n > 0 {
      PositionsComplete(finished, n - 1);
      var before, now := KeptPositions(finished, n - 1), KeptPositions(finished, n);
      assert before <= now;
      forall j | 0 <= j < n && finished[j].Some?
        ensures j in now
      {
        if j == n - 1 {
          assert now[|before|] == j;
        } else {
          var k :| 0 <= k < |before| && before[k] == j;
          assert now[k] == j;
        }
      }
    }
  }

  /**
   Table alignment: the imports of an accepted table are the kept columns in header order, each
   under its own name, one element per data row, every element the value of the column's cell.
   */
  lemma TableAligned<F>(lib: FloatLib<F>, names: seq<string>, rows: seq<Row>) returns (positions: seq<nat>)
    requires Accepted(lib, names, rows)
    ensures |positions| == |Emitted(lib, names, rows)|
    ensures forall k, l :: 0 <= k < l < |positions| ==> positions[k] < positions[l] < |names|
    ensures forall j :: 0 <= j < |names| && Finished(lib, rows, |names|)[j].Some? ==> j in positions
    ensures forall k :: 0 <= k < |positions| ==>
      positions[k] < |names|
      && Emitted(lib, names, rows)[k].name == names[positions[k]]
      && Denotes(lib, Emitted(lib, names, rows)[k].data, CellsOf(lib, FieldsOf(rows, positions[k])))
    ensures forall k, l :: 0 <= k < l < |positions| ==>
      Emitted(lib, names, rows)[k].name != Emitted(lib, names, rows)[l].name
  {
    var finished := Finished(lib, rows, |names|);
    positions := KeptPositions(finished, |names|);
    PositionsComplete(finished, |names|);
    forall k | 0 <= k < |positions|
      ensures Denotes(lib, Emitted(lib, names, rows)[k].data, CellsOf(lib, FieldsOf(rows, positions[k])))
    {
      KeptDenotes(lib, CellsOf(lib, FieldsOf(rows, positions[k])));
    }
  }

  // ----- generated names -----

  lemma GeneratedInjective(i: nat, j: nat)
    requires Generated(i) == Generated(j)
    ensures i == j
  {
    assert Decimal(i) == Generated(i)[3..] && Decimal(j) == Generated(j)[3..];
    DecimalInjective(i, j);
  }

  /** A table without a header never has a duplicate name. */
  lemma GeneratedNamesDistinct(first: Row)
    ensures NoteLength.Distinct(Names(first, false))
  {
    var names := Names(first, false);
    forall i, j | 0 <= i < j < |names|
      ensures names[i] != names[j]
    {
      if names[i] == names[j] {
        GeneratedInjective(i, j);
      }
    }
  }

  /** Two header fields that get one name: equal texts, or a blank whose generated name is taken. */
  ghost predicate Clash(first: Row, i: nat, j: nat)
    requires i < |first| && j < |first|
  {
    && i != j && Trim(first[i]) != ""
    && Trim(first[i]) == (if Trim(first[j]) != "" then Trim(first[j]) else Generated(j))
  }

  /** Exactly when a header has duplicate names. */
  lemma HeaderNamesDistinct(first: Row)
    ensures NoteLength.Distinct(Names(first, true))
       <==> forall i, j :: 0 <= i < |first| && 0 <= j < |first| ==> !Clash(first, i, j)
  {
    var names := Names(first, true);
    if NoteLength.Distinct(names) {
      forall i, j | 0 <= i < |first| && 0 <= j < |first|
        ensures !Clash(first, i, j)
      {
        if i != j {
          assert names[i] != names[j];
        }
      }
    } else {
      var i, j :| 0 <= i < j < |names| && names[i] == names[j];
      if Trim(first[i]) == "" && Trim(first[j]) == "" {
        GeneratedInjective(i, j);
      }
      assert Clash(first, i, j) || Clash(first, j, i);
    }
  }

  /** A generated name can clash with a header field that spells it. */
  lemma GeneratedNameClashes()
    ensures !NoteLength.Distinct(Names(["col1", ""], true))
  {
    assert Decimal(1) == "1";
    assert Trim("") == "" && Trim("col1") == "col1";
    assert Names(["col1", ""], true)[0] == Names(["col1", ""], true)[1];
  }
}
