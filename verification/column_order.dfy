/** What the order of the fields of a column can change: whether the column is read at all. */
module ColumnOrder {
  import opened Wrappers
  import opened Reorderings
  import opened Tokens
  import opened Columns
  import Categories

  /** What a caller sees of an import: an error, a column left out, or a column of some dtype. */
  datatype Verdict = Failed | LeftOut | Kept(dtype: nat)

  ghost function VerdictOf<F>(lib: FloatLib<F>, fields: seq<string>): Verdict {
    match ImportOf(lib, CellsOf(lib, fields))
    case Err(_) => Failed
    case Ok(None) => LeftOut
    case Ok(Some(data)) => Kept(Dtype(data))
  }

  /** No token is refused, or text and numbers do not both occur. */
  ghost predicate OrderFree<F>(cells: seq<Cell<F>>) {
    NoneRefused(cells) || !KindOf(cells).SkipKind?
  }

  lemma RefusedOccurs<F>(p: seq<Cell<F>>, q: seq<Cell<F>>)
    requires multiset(p) == multiset(q) && NoneRefused(p)
    ensures NoneRefused(q)
  {
    forall j | 0 <= j < |q|
      ensures !q[j].Refused?
    {
      var i := OccursAt(q, p, j);
    }
  }

  /** A column that is not dropped reads every field. */
  lemma ReadableIfNotDropped<F>(cells: seq<Cell<F>>)
    requires !KindOf(cells).SkipKind?
    ensures Readable(cells) <==> NoneRefused(cells)
  {
    forall i | 0 <= i < |cells|
      ensures !KindOf(cells[..i]).SkipKind?
    {
      if KindOf(cells[..i]).SkipKind? {
        SkipStays(cells, i);
      }
    }
  }

  /** Where text and numbers do not both occur with a refused token, the order decides nothing. */
  lemma ReadableIgnoresOrder<F>(p: seq<Cell<F>>, q: seq<Cell<F>>)
    requires multiset(p) == multiset(q) && OrderFree(p)
    ensures Readable(p) <==> Readable(q)
  {
    KindIgnoresOrder(p, q);
    if NoneRefused(p) {
      RefusedOccurs(p, q);
    } else {
      ReadableIfNotDropped(p);
      ReadableIfNotDropped(q);
      if NoneRefused(q) {
        RefusedOccurs(q, p);
      }
    }
  }

  /** Exactly when every order of the cells can be read or none can. */
  lemma ReadableDecides<F>(p: seq<Cell<F>>)
    ensures (forall q :: multiset(q) == multiset(p) ==> (Readable(q) <==> Readable(p))) <==> OrderFree(p)
  {
    if OrderFree(p) {
      forall q | multiset(q) == multiset(p)
        ensures Readable(q) <==> Readable(p)
      {
        ReadableIgnoresOrder(p, q);
      }
    } else {
      var k :| 0 <= k < |p| && p[k].Refused?;
      var refused := ToFront(p, k);
      ToFrontCounts(p, k);
      assert refused[0].Refused? && refused[..0] == [];
      var i, j := TextAndNumber(p);
      var dropped := TwoToFront(p, i, j);
      DroppedByTwo(dropped);
      assert Readable(dropped) && !Readable(refused);
    }
  }

  lemma {:induction false} CellsCount<F>(lib: FloatLib<F>, fields: seq<string>, others: seq<string>)
    requires multiset(fields) == multiset(others)
    ensures multiset(CellsOf(lib, fields)) == multiset(CellsOf(lib, others))
  {
    if fields == [] {
      assert others == [];
    } else {
      assert fields[0] in multiset(others);
      var k := PlaceOf(others, fields[0]);
      WithoutCounts(fields, 0);
      WithoutCounts(others, k);
      assert Without(fields, 0) == fields[1..];
      CellsCount(lib, fields[1..], Without(others, k));
      TakeCell(lib, fields, 0);
      TakeCell(lib, others, k);
    }
  }

  lemma TakeCell<F>(lib: FloatLib<F>, fields: seq<string>, k: nat)
    requires k < |fields|
    ensures multiset(CellsOf(lib, fields))
         == multiset(CellsOf(lib, Without(fields, k))) + multiset{Classify(lib, fields[k])}
  {
    var cells := CellsOf(lib, fields);
    WithoutCounts(cells, k);
    assert CellsOf(lib, Without(fields, k)) == Without(cells, k);
  }

  /** A refused token in front stops the import. */
  lemma RefusedInFront<F>(lib: FloatLib<F>, fields: seq<string>, k: nat)
    requires k < |fields| && Classify(lib, fields[k]).Refused?
    ensures VerdictOf(lib, ToFront(fields, k)) == Failed
  {
    var cells := CellsOf(lib, ToFront(fields, k));
    assert cells[0].Refused? && cells[..0] == [];
  }

  /** A number and a text in front drop the column before any refused token is met. */
  lemma DroppedInFront<F>(lib: FloatLib<F>, fields: seq<string>) returns (reordered: seq<string>)
    requires KindOf(CellsOf(lib, fields)).SkipKind?
    ensures multiset(reordered) == multiset(fields) && VerdictOf(lib, reordered) == LeftOut
  {
    var i, j := TextAndNumber(CellsOf(lib, fields));
    reordered := TwoToFront(fields, i, j);
    DroppedFields(lib, reordered);
  }

  lemma TextAndNumber<F>(cells: seq<Cell<F>>) returns (i: nat, j: nat)
    requires KindOf(cells).SkipKind?
    ensures i < |cells| && j < |cells| && i != j && cells[i].Text? && (cells[j].Int? || cells[j].Float?)
  {
    i :| 0 <= i < |cells| && cells[i].Text?;
    j :| 0 <= j < |cells| && (cells[j].Int? || cells[j].Float?);
  }

  lemma DroppedFields<F>(lib: FloatLib<F>, fields: seq<string>)
    requires |fields| >= 2 && Classify(lib, fields[1]).Text?
    requires Classify(lib, fields[0]).Int? || Classify(lib, fields[0]).Float?
    ensures VerdictOf(lib, fields) == LeftOut
  {
    DroppedByTwo(CellsOf(lib, fields));
  }

  lemma TwoDrop<F>(cells: seq<Cell<F>>)
    requires |cells| >= 2 && (cells[0].Int? || cells[0].Float?) && cells[1].Text?
    ensures KindOf(cells[..2]).SkipKind?
  {
    assert cells[..2][0] == cells[0] && cells[..2][1] == cells[1];
  }

  lemma DroppedByTwo<F>(cells: seq<Cell<F>>)
    requires |cells| >= 2 && (cells[0].Int? || cells[0].Float?) && cells[1].Text?
    ensures Readable(cells) && KindOf(cells).SkipKind?
  {
    TwoDrop(cells);
    SkipStays(cells, 2);
    forall i | 0 <= i < |cells| && cells[i].Refused?
      ensures KindOf(cells[..i]).SkipKind?
    {
      assert cells[..i][..2] == cells[..2];
      SkipStays(cells[..i], 2);
    }
  }

  /**
   Exactly when the order of the fields decides nothing: every reordering imports alike if and
   only if no token is refused or text and numbers do not both occur.
   */
  lemma OrderDecides<F>(lib: FloatLib<F>, fields: seq<string>)
    ensures (forall others :: multiset(others) == multiset(fields) ==> VerdictOf(lib, others) == VerdictOf(lib, fields))
       <==> OrderFree(CellsOf(lib, fields))
  {
    var cells := CellsOf(lib, fields);
    if OrderFree(cells) {
      forall others | multiset(others) == multiset(fields)
        ensures VerdictOf(lib, others) == VerdictOf(lib, fields)
      {
        CellsCount(lib, fields, others);
        ReorderImport(lib, cells, CellsOf(lib, others));
      }
    } else {
      var k :| 0 <= k < |cells| && cells[k].Refused?;
      ToFrontCounts(fields, k);
      RefusedInFront(lib, fields, k);
      var dropped := DroppedInFront(lib, fields);
      assert VerdictOf(lib, ToFront(fields, k)) != VerdictOf(lib, dropped);
    }
  }

  /** Reordered cells are imported alike: both fail, both are left out, or both are kept with one dtype. */
  lemma ReorderImport<F>(lib: FloatLib<F>, p: seq<Cell<F>>, q: seq<Cell<F>>)
    requires multiset(p) == multiset(q) && OrderFree(p)
    ensures ImportOf(lib, p).Ok? <==> ImportOf(lib, q).Ok?
    ensures ImportOf(lib, p).Ok? ==> (ImportOf(lib, p).value.Some? <==> ImportOf(lib, q).value.Some?)
    ensures ImportOf(lib, p).Ok? && ImportOf(lib, p).value.Some? ==>
      Dtype(ImportOf(lib, p).value.value) == Dtype(ImportOf(lib, q).value.value)
  {
    ReadableIgnoresOrder(p, q);
    ReorderKeepsShape(lib, p, q);
  }

  /**
   Equal cells of two kept reorderings carry equal numbers, or codes that one renaming and its
   reverse turn into each other.
   */
  ghost predicate SameValue<F>(p: seq<Cell<F>>, q: seq<Cell<F>>, x: Data<F>, y: Data<F>, i: nat, j: nat)
    requires SameLabels(p, q)
  {
    match (x, y)
    case (IntData(a), IntData(b)) => i < |a| && j < |b| && a[i] == b[j]
    case (FloatData(a), FloatData(b)) => i < |a| && j < |b| && a[i] == b[j]
    case (LabelData(a, _), LabelData(b, _)) =>
      && i < |a| && j < |b| && IsCode(Items(p), a[i]) && IsCode(Items(q), b[j])
      && Categories.Rename(Items(p), Items(q), a[i]) == b[j]
      && Categories.Rename(Items(q), Items(p), b[j]) == a[i]
    case _ => false
  }

  /** A kept column keeps the value of every cell under reordering. */
  lemma ReorderImportValues<F>(lib: FloatLib<F>, p: seq<Cell<F>>, q: seq<Cell<F>>, i: nat, j: nat)
    requires multiset(p) == multiset(q) && OrderFree(p)
    requires i < |p| && j < |q| && p[i] == q[j]
    requires ImportOf(lib, p).Ok? && ImportOf(lib, p).value.Some?
    ensures ImportOf(lib, q).Ok? && ImportOf(lib, q).value.Some? && SameLabels(p, q)
    ensures SameValue(p, q, ImportOf(lib, p).value.value, ImportOf(lib, q).value.value, i, j)
  {
    ReorderImport(lib, p, q);
    LabelsIgnoreOrder(p, q);
    ReorderNumbers(lib, p, q, i, j);
    if ImportOf(lib, p).value.value.LabelData? {
      ReorderLabels(lib, p, q, i, j);
    }
  }

  // ----- a column whose import depends on the order -----

  /** An integer token of one digit more than the interpreter converts. */
  function LongToken(): string {
    seq(MAX_INT_DIGITS + 1, _ => '1')
  }

  lemma LongTokenIsRefused<F>(lib: FloatLib<F>)
    ensures Classify(lib, LongToken()).Refused?
  {
    var token := LongToken();
    assert token == "" + ("" + (token + ""));
    assert Notation(token, "", "", token, "");
    assert Unsigned(token) == token;
    RefusedFields(lib, token);
  }

  /** A number, a text and a long token: left out in that order, an error with the long token first. */
  lemma OrderMatters<F>(lib: FloatLib<F>)
    requires lib.parse("a") == None
    ensures VerdictOf(lib, ["1", "a", LongToken()]) == LeftOut
    ensures VerdictOf(lib, [LongToken(), "1", "a"]) == Failed
  {
    ShortTokens(lib);
    LongTokenIsRefused(lib);
    DroppedByTwo(CellsOf(lib, ["1", "a", LongToken()]));
    assert [LongToken(), "1", "a"] == ToFront(["1", "a", LongToken()], 2);
    RefusedInFront(lib, ["1", "a", LongToken()], 2);
  }

  lemma ShortTokens<F>(lib: FloatLib<F>)
    requires lib.parse("a") == None
    ensures Classify(lib, "a").Text? && Classify(lib, "1").Int?
  {
    assert Trim("a") == "a" && Unsigned("a") == "a";
    assert Printed(1, false) == "1";
    assert "" + (Printed(1, false) + "") == "1";
    IntegerRoundTrip(lib, 1, "", "", false);
  }
}
