/**
 What a column of cells is imported as, told from the cells alone: which kinds of cell occur,
 what is stored for each, and when the column is left out.
 */
module ColumnMeaning {
  import opened Wrappers
  import opened Tokens
  import opened Columns
  import CategoryNote
  import NoteLength
  import NoteReader
  import Categories
  import CategoryReading

  /** A refused token is never reached exactly when a text and a number stand before it. */
  lemma ReadableMeans<F>(cells: seq<Cell<F>>)
    ensures Readable(cells) <==> forall i :: 0 <= i < |cells| && cells[i].Refused? ==>
      && (exists j :: 0 <= j < i && cells[j].Text?)
      && (exists j :: 0 <= j < i && (cells[j].Int? || cells[j].Float?))
  {
    forall i | 0 <= i < |cells|
      ensures KindOf(cells[..i]).SkipKind?
         <==> (exists j :: 0 <= j < i && cells[j].Text?) && (exists j :: 0 <= j < i && (cells[j].Int? || cells[j].Float?))
    {
      DroppedMeans(cells, i);
    }
  }

  lemma DroppedMeans<F>(cells: seq<Cell<F>>, n: nat)
    requires n <= |cells|
    ensures KindOf(cells[..n]).SkipKind?
       <==> (exists j :: 0 <= j < n && cells[j].Text?) && (exists j :: 0 <= j < n && (cells[j].Int? || cells[j].Float?))
  {
    var p := cells[..n];
    assert forall j :: 0 <= j < n ==> p[j] == cells[j];
    if HasText(p) {
      var j :| 0 <= j < |p| && p[j].Text?;
      assert cells[j].Text?;
    }
    if HasInt(p) {
      var j :| 0 <= j < |p| && p[j].Int?;
      assert cells[j].Int?;
    }
    if HasFloat(p) {
      var j :| 0 <= j < |p| && p[j].Float?;
      assert cells[j].Float?;
    }
  }

  /** Text with a number: left out. */
  lemma MixedColumn<F>(lib: FloatLib<F>, cells: seq<Cell<F>>)
    requires Readable(cells)
    requires exists i :: 0 <= i < |cells| && cells[i].Text?
    requires exists i :: 0 <= i < |cells| && (cells[i].Int? || cells[i].Float?)
    ensures ImportOf(lib, cells) == Ok(None)
  {
  }

  /** Neither text nor a number: left out. */
  lemma BlankColumn<F>(lib: FloatLib<F>, cells: seq<Cell<F>>)
    requires Readable(cells)
    requires forall i :: 0 <= i < |cells| ==> !cells[i].Text? && !cells[i].Int? && !cells[i].Float?
    ensures ImportOf(lib, cells) == Ok(None)
  {
  }

  /** Integers only: kept as they are. */
  lemma IntegerColumn<F>(lib: FloatLib<F>, cells: seq<Cell<F>>) returns (ints: seq<int>)
    requires cells != [] && forall i :: 0 <= i < |cells| ==> cells[i].Int?
    ensures ImportOf(lib, cells) == Ok(Some(IntData(ints)))
    ensures |ints| == |cells| && forall i :: 0 <= i < |cells| ==> cells[i] == Int(ints[i])
  {
    assert cells[0].Int?;
    ints := Ints(cells);
  }

  /** `f` is what a numeric column stores for the cell. */
  ghost predicate FloatIs<F>(lib: FloatLib<F>, f: F, cell: Cell<F>) {
    match cell
    case Int(v) => f == lib.ofInt(v)
    case Float(g) => f == g
    case Blank => f == lib.nan
    case _ => false
  }

  lemma FloatsAre<F>(lib: FloatLib<F>, cells: seq<Cell<F>>)
    requires forall i :: 0 <= i < |cells| ==> !cells[i].Text? && !cells[i].Refused?
    ensures forall i :: 0 <= i < |cells| ==> FloatIs(lib, Floats(lib, cells)[i], cells[i])
  {
  }

  lemma NoneRefusedHere<F>(cells: seq<Cell<F>>)
    requires Readable(cells) && forall i :: 0 <= i < |cells| ==> !cells[i].Text?
    ensures forall i :: 0 <= i < |cells| ==> !cells[i].Refused?
  {
    ReadableMeans(cells);
  }

  /** Every value is NaN exactly when no cell is a number that is not. */
  lemma AllNanMeans<F>(lib: FloatLib<F>, cells: seq<Cell<F>>)
    requires lib.isNan(lib.nan) && forall i :: 0 <= i < |cells| ==> !cells[i].Text? && !cells[i].Refused?
    ensures !AllNan(lib, Floats(lib, cells))
       <==> exists i :: 0 <= i < |cells| &&
              ((cells[i].Int? && !lib.isNan(lib.ofInt(cells[i].v))) || (cells[i].Float? && !lib.isNan(cells[i].f)))
  {
    var floats := Floats(lib, cells);
    if !AllNan(lib, floats) {
      var i :| 0 <= i < |floats| && !lib.isNan(floats[i]);
      assert !cells[i].Blank?;
    }
    if exists i :: 0 <= i < |cells| &&
         ((cells[i].Int? && !lib.isNan(lib.ofInt(cells[i].v))) || (cells[i].Float? && !lib.isNan(cells[i].f)))
    {
      var i :| 0 <= i < |cells| &&
        ((cells[i].Int? && !lib.isNan(lib.ofInt(cells[i].v))) || (cells[i].Float? && !lib.isNan(cells[i].f)));
      assert !lib.isNan(floats[i]);
    }
  }

  /**
   No text, and a float or an integer beside a blank: kept as floats exactly when some cell is a
   number that is not NaN; every stored value is its own cell's number, or NaN for a blank.
   */
  lemma FloatColumn<F>(lib: FloatLib<F>, cells: seq<Cell<F>>)
    requires Readable(cells) && lib.isNan(lib.nan)
    requires forall i :: 0 <= i < |cells| ==> !cells[i].Text?
    requires (exists i :: 0 <= i < |cells| && cells[i].Float?)
          || ((exists i :: 0 <= i < |cells| && cells[i].Int?) && (exists i :: 0 <= i < |cells| && cells[i].Blank?))
    ensures ImportOf(lib, cells).Ok?
    ensures ImportOf(lib, cells).value.Some?
       <==> exists i :: 0 <= i < |cells| &&
              ((cells[i].Int? && !lib.isNan(lib.ofInt(cells[i].v))) || (cells[i].Float? && !lib.isNan(cells[i].f)))
    ensures match ImportOf(lib, cells).value
            case None => true
            case Some(data) =>
              data.FloatData? && |data.floats| == |cells|
              && forall i :: 0 <= i < |cells| ==>
                   match cells[i]
                   case Int(v) => data.floats[i] == lib.ofInt(v)
                   case Float(f) => data.floats[i] == f
                   case _ => cells[i].Blank? && data.floats[i] == lib.nan
  {
    NoneRefusedHere(cells);
    FloatsAre(lib, cells);
    AllNanMeans(lib, cells);
    assert KindOf(cells).FloatKind?;
  }

  /** The labels of a column are the texts of its cells. */
  lemma LabelsMean<F>(cells: seq<Cell<F>>)
    ensures forall name :: Some(name) in Items(cells) <==> exists i :: 0 <= i < |cells| && cells[i] == Text(name)
  {
    forall name
      ensures Some(name) in Items(cells) <==> exists i :: 0 <= i < |cells| && cells[i] == Text(name)
    {
      if Some(name) in Items(cells) {
        var i :| 0 <= i < |cells| && Items(cells)[i] == Some(name);
        assert cells[i] == Text(name);
      }
      if exists i :: 0 <= i < |cells| && cells[i] == Text(name) {
        var i :| 0 <= i < |cells| && cells[i] == Text(name);
        assert Items(cells)[i] == Some(name);
      }
    }
  }

  /** What a label column stores for the cell: the code the note gives its text, or -1 for a blank. */
  ghost predicate CodeIs<F>(codes: map<string, int>, value: int, cell: Cell<F>) {
    match cell
    case Text(name) => name in codes && codes[name] == value
    case Blank => value == -1
    case _ => false
  }

  lemma OnlyTextAndBlank<F>(cells: seq<Cell<F>>)
    requires Readable(cells) && forall i :: 0 <= i < |cells| ==> !cells[i].Int? && !cells[i].Float?
    ensures forall i :: 0 <= i < |cells| ==> cells[i].Text? || cells[i].Blank?
  {
    ReadableMeans(cells);
  }

  lemma LabelKind<F>(cells: seq<Cell<F>>)
    requires exists i :: 0 <= i < |cells| && cells[i].Text?
    requires forall i :: 0 <= i < |cells| ==> !cells[i].Int? && !cells[i].Float?
    ensures KindOf(cells).CategoryKind?
  {
  }

  lemma IsLabelColumn<F>(lib: FloatLib<F>, cells: seq<Cell<F>>, finished: Option<(seq<int>, string)>)
    requires Readable(cells) && KindOf(cells).CategoryKind? && finished == Categories.FinishOf(Items(cells))
    ensures ImportOf(lib, cells)
         == Ok(if finished.None? then None else Some(LabelData(finished.value.0, finished.value.1)))
  {
  }

  /**
   Text and no number: kept exactly when a note of the texts has at most 1024 bytes, whichever
   way they are numbered.
   */
  lemma LabelColumnKept<F>(lib: FloatLib<F>, cells: seq<Cell<F>>, codes: map<string, nat>)
    requires Readable(cells)
    requires exists i :: 0 <= i < |cells| && cells[i].Text?
    requires forall i :: 0 <= i < |cells| ==> !cells[i].Int? && !cells[i].Float?
    requires NoteLength.IsNumbering(codes)
    requires forall name :: name in codes <==> exists i :: 0 <= i < |cells| && cells[i] == Text(name)
    ensures ImportOf(lib, cells).Ok?
    ensures ImportOf(lib, cells).value.Some? <==> |CategoryNote.Note(codes)| <= 1024
  {
    LabelKind(cells);
    IsLabelColumn(lib, cells, Categories.FinishOf(Items(cells)));
    LabelsMean(cells);
    CategoryReading.KeptExactly(Items(cells), codes);
    var i :| 0 <= i < |cells| && cells[i].Text?;
    assert Items(cells)[i] == Some(cells[i].token);
  }

  /** A kept label column reads back cell by cell through its note. */
  lemma LabelColumnReadsBack<F>(lib: FloatLib<F>, cells: seq<Cell<F>>)
    requires Readable(cells)
    requires exists i :: 0 <= i < |cells| && cells[i].Text?
    requires forall i :: 0 <= i < |cells| ==> !cells[i].Int? && !cells[i].Float?
    requires ImportOf(lib, cells).value.Some?
    ensures var data := ImportOf(lib, cells).value.value;
            data.LabelData? && |data.codes| == |cells| && NoteReader.ReadNote(data.note).Some?
            && var (codes, missing) := NoteReader.ReadNote(data.note).value;
            missing == -1 && forall i :: 0 <= i < |cells| ==> CodeIs(codes, data.codes[i], cells[i])
  {
    LabelKind(cells);
    IsLabelColumn(lib, cells, Categories.FinishOf(Items(cells)));
    OnlyTextAndBlank(cells);
    CategoryReading.FinishReadsBack(Items(cells));
    var values := Categories.FinishOf(Items(cells)).value.0;
    var codes := NoteReader.ReadNote(Categories.FinishOf(Items(cells)).value.1).value.0;
    forall i | 0 <= i < |cells|
      ensures CodeIs(codes, values[i], cells[i])
    {
      assert CategoryReading.ReadsAs(codes, values[i], Items(cells)[i]);
    }
  }
}
