/** One table column: an online machine that buffers, promotes and drops values. */
module Columns {
  import opened Wrappers
  import opened Tokens
  import CategoryNote
  import Categories

  datatype Kind = EmptyKind | BlankKind | IntKind | FloatKind | CategoryKind | SkipKind

  /** What a column is imported as. */
  datatype Data<F> = IntData(ints: seq<int>) | FloatData(floats: seq<F>) | LabelData(codes: seq<int>, note: string)

  // ----- the whole-column specification -----

  predicate HasText<F>(cells: seq<Cell<F>>) {
    exists i :: 0 <= i < |cells| && cells[i].Text?
  }

  predicate HasBlank<F>(cells: seq<Cell<F>>) {
    exists i :: 0 <= i < |cells| && cells[i].Blank?
  }

  predicate HasInt<F>(cells: seq<Cell<F>>) {
    exists i :: 0 <= i < |cells| && cells[i].Int?
  }

  predicate HasFloat<F>(cells: seq<Cell<F>>) {
    exists i :: 0 <= i < |cells| && cells[i].Float?
  }

  /** Which kinds of cell occur decides the kind of the column. */
  function KindFrom(text: bool, blank: bool, int': bool, float: bool): Kind {
    if text && (int' || float) then SkipKind
    else if text then CategoryKind
    else if float || (int' && blank) then FloatKind
    else if int' then IntKind
    else if blank then BlankKind
    else EmptyKind
  }

  function KindOf<F>(cells: seq<Cell<F>>): Kind {
    KindFrom(HasText(cells), HasBlank(cells), HasInt(cells), HasFloat(cells))
  }

  function IntOf<F>(cell: Cell<F>): int {
    if cell.Int? then cell.v else 0
  }

  function FloatOf<F>(lib: FloatLib<F>, cell: Cell<F>): F {
    match cell
    case Int(v) => lib.ofInt(v)
    case Float(f) => f
    case _ => lib.nan
  }

  function ItemOf<F>(cell: Cell<F>): Categories.Item {
    if cell.Text? then Some(cell.token) else None
  }

  function Ints<F>(cells: seq<Cell<F>>): seq<int> {
    seq(|cells|, i requires 0 <= i < |cells| => IntOf(cells[i]))
  }

  function Floats<F>(lib: FloatLib<F>, cells: seq<Cell<F>>): seq<F> {
    seq(|cells|, i requires 0 <= i < |cells| => FloatOf(lib, cells[i]))
  }

  function Items<F>(cells: seq<Cell<F>>): seq<Categories.Item> {
    seq(|cells|, i requires 0 <= i < |cells| => ItemOf(cells[i]))
  }

  predicate AllNan<F>(lib: FloatLib<F>, floats: seq<F>) {
    forall i :: 0 <= i < |floats| ==> lib.isNan(floats[i])
  }

  /** What a column of these cells is imported as; `None` when it is left out. */
  function FinishOf<F>(lib: FloatLib<F>, cells: seq<Cell<F>>): Option<Data<F>> {
    match KindOf(cells)
    case IntKind => Some(IntData(Ints(cells)))
    case FloatKind =>
      if AllNan(lib, Floats(lib, cells)) then None else Some(FloatData(Floats(lib, cells)))
    case CategoryKind =>
      (match Categories.FinishOf(Items(cells))
       case None => None
       case Some(r) => Some(LabelData(r.0, r.1)))
    case _ => None
  }

  // ----- one more cell -----

  /** The transition table of the machine. */
  function NextKind<F>(kind: Kind, cell: Cell<F>): Kind {
    match cell
    case Text(_) =>
      if kind.EmptyKind? || kind.BlankKind? then CategoryKind
      else if kind.IntKind? || kind.FloatKind? then SkipKind
      else kind
    case Blank =>
      if kind.EmptyKind? then BlankKind else if kind.IntKind? then FloatKind else kind
    case Int(_) =>
      if kind.EmptyKind? then IntKind
      else if kind.BlankKind? then FloatKind
      else if kind.CategoryKind? then SkipKind
      else kind
    case Float(_) =>
      if kind.CategoryKind? || kind.SkipKind? then SkipKind else FloatKind
    case Refused => kind
  }

  lemma OccursStep<F>(cells: seq<Cell<F>>, cell: Cell<F>)
    ensures HasText(cells + [cell]) == (HasText(cells) || cell.Text?)
    ensures HasBlank(cells + [cell]) == (HasBlank(cells) || cell.Blank?)
    ensures HasInt(cells + [cell]) == (HasInt(cells) || cell.Int?)
    ensures HasFloat(cells + [cell]) == (HasFloat(cells) || cell.Float?)
  {
    var now := cells + [cell];
    assert now[|cells|] == cell;
    assert forall i :: 0 <= i < |cells| ==> now[i] == cells[i];
  }

  /** The online transitions compute the kind of the whole column. */
  lemma KindStep<F>(cells: seq<Cell<F>>, cell: Cell<F>)
    ensures KindOf(cells + [cell]) == NextKind(KindOf(cells), cell)
  {
    OccursStep(cells, cell);
  }

  lemma MapsStep<F>(lib: FloatLib<F>, cells: seq<Cell<F>>, cell: Cell<F>)
    ensures Ints(cells + [cell]) == Ints(cells) + [IntOf(cell)]
    ensures Floats(lib, cells + [cell]) == Floats(lib, cells) + [FloatOf(lib, cell)]
    ensures Items(cells + [cell]) == Items(cells) + [ItemOf(cell)]
  {
  }

  ghost predicate OnlyInts<F>(cells: seq<Cell<F>>) {
    forall i :: 0 <= i < |cells| ==> cells[i].Int?
  }

  ghost predicate OnlyBlanks<F>(cells: seq<Cell<F>>) {
    forall i :: 0 <= i < |cells| ==> cells[i].Blank?
  }

  ghost predicate NoneRefused<F>(cells: seq<Cell<F>>) {
    forall i :: 0 <= i < |cells| ==> !cells[i].Refused?
  }

  lemma KindMeans<F>(cells: seq<Cell<F>>)
    requires NoneRefused(cells)
    ensures KindOf(cells).EmptyKind? ==> cells == []
    ensures KindOf(cells).IntKind? ==> OnlyInts(cells)
    ensures KindOf(cells).BlankKind? ==> OnlyBlanks(cells)
  {
    forall i | 0 <= i < |cells|
      ensures !KindOf(cells).EmptyKind?
      ensures KindOf(cells).IntKind? ==> cells[i].Int?
      ensures KindOf(cells).BlankKind? ==> cells[i].Blank?
    {
      assert !cells[i].Refused?;
    }
    if cells != [] {
      assert !cells[0].Refused?;
    }
  }

  function Converted<F>(lib: FloatLib<F>, ints: seq<int>): seq<F> {
    seq(|ints|, i requires 0 <= i < |ints| => lib.ofInt(ints[i]))
  }

  function Nans<F>(lib: FloatLib<F>, n: nat): seq<F> {
    seq(n, _ => lib.nan)
  }

  function MissingItems(n: nat): seq<Categories.Item> {
    seq(n, _ => None)
  }

  /** Buffered integers promoted to floats are the column read as floats. */
  lemma PromoteInts<F>(lib: FloatLib<F>, cells: seq<Cell<F>>)
    requires OnlyInts(cells)
    ensures Converted(lib, Ints(cells)) == Floats(lib, cells)
  {
    forall i | 0 <= i < |cells|
      ensures Converted(lib, Ints(cells))[i] == Floats(lib, cells)[i]
    {
      assert cells[i].Int?;
    }
  }

  /** Counted blanks are the column read as floats, and as labels. */
  lemma PromoteBlanks<F>(lib: FloatLib<F>, cells: seq<Cell<F>>)
    requires OnlyBlanks(cells)
    ensures Nans(lib, |cells|) == Floats(lib, cells)
    ensures MissingItems(|cells|) == Items(cells)
  {
  }

  // ----- the online machine -----

  /** The fields that matter in each state are those of the whole-column specification. */
  ghost predicate Matches<F>(
    lib: FloatLib<F>, seen: seq<Cell<F>>, kind: Kind, blanks: nat, ints: seq<int>, floats: seq<F>,
    pushed: seq<Categories.Item>)
  {
    && kind == KindOf(seen)
    && (!kind.SkipKind? ==> NoneRefused(seen))
    && (kind.EmptyKind? || kind.BlankKind? ==> pushed == [])
    && (kind.BlankKind? ==> blanks == |seen|)
    && (kind.IntKind? ==> ints == Ints(seen))
    && (kind.FloatKind? ==> floats == Floats(lib, seen))
    && (kind.CategoryKind? ==> pushed == Items(seen))
  }

  lemma StartMatches<F>(lib: FloatLib<F>)
    ensures Matches(lib, [], EmptyKind, 0, [], [], [])
  {
  }

  lemma TextMatches<F>(
    lib: FloatLib<F>, seen: seq<Cell<F>>, kind: Kind, blanks: nat, ints: seq<int>, floats: seq<F>,
    pushed: seq<Categories.Item>, token: string)
    requires Matches(lib, seen, kind, blanks, ints, floats, pushed) && !kind.SkipKind?
    ensures kind.EmptyKind? || kind.CategoryKind? ==>
      Matches(lib, seen + [Text(token)], CategoryKind, blanks, ints, floats, pushed + [Some(token)])
    ensures kind.BlankKind? ==>
      Matches(lib, seen + [Text(token)], CategoryKind, blanks, ints, floats, MissingItems(blanks) + [Some(token)])
    ensures kind.IntKind? || kind.FloatKind? ==>
      Matches(lib, seen + [Text(token)], SkipKind, blanks, ints, floats, pushed)
  {
    KindStep(seen, Text(token));
    MapsStep(lib, seen, Text(token));
    KindMeans(seen);
    if kind.BlankKind? {
      PromoteBlanks(lib, seen);
    }
  }

  lemma BlankMatches<F>(
    lib: FloatLib<F>, seen: seq<Cell<F>>, kind: Kind, blanks: nat, ints: seq<int>, floats: seq<F>,
    pushed: seq<Categories.Item>)
    requires Matches(lib, seen, kind, blanks, ints, floats, pushed) && !kind.SkipKind?
    ensures kind.EmptyKind? ==> Matches(lib, seen + [Blank], BlankKind, 1, ints, floats, pushed)
    ensures kind.BlankKind? ==> Matches(lib, seen + [Blank], BlankKind, blanks + 1, ints, floats, pushed)
    ensures kind.IntKind? ==>
      Matches(lib, seen + [Blank], FloatKind, blanks, ints, Converted(lib, ints) + [lib.nan], pushed)
    ensures kind.FloatKind? ==> Matches(lib, seen + [Blank], FloatKind, blanks, ints, floats + [lib.nan], pushed)
    ensures kind.CategoryKind? ==> Matches(lib, seen + [Blank], CategoryKind, blanks, ints, floats, pushed + [None])
  {
    KindStep(seen, Blank);
    MapsStep(lib, seen, Blank);
    KindMeans(seen);
    if kind.IntKind? {
      PromoteInts(lib, seen);
    }
  }

  /** `f` is the number as a float, `cell` an integer or a float cell. */
  lemma NumberMatches<F>(
    lib: FloatLib<F>, seen: seq<Cell<F>>, kind: Kind, blanks: nat, ints: seq<int>, floats: seq<F>,
    pushed: seq<Categories.Item>, cell: Cell<F>, f: F)
    requires Matches(lib, seen, kind, blanks, ints, floats, pushed) && !kind.SkipKind?
    requires (cell.Int? || cell.Float?) && f == FloatOf(lib, cell)
    ensures kind.EmptyKind? && cell.Int? ==> Matches(lib, seen + [cell], IntKind, blanks, [cell.v], floats, pushed)
    ensures kind.EmptyKind? && cell.Float? ==> Matches(lib, seen + [cell], FloatKind, blanks, ints, [f], pushed)
    ensures kind.BlankKind? ==>
      Matches(lib, seen + [cell], FloatKind, blanks, ints, Nans(lib, blanks) + [f], pushed)
    ensures kind.IntKind? && cell.Int? ==>
      Matches(lib, seen + [cell], IntKind, blanks, ints + [cell.v], floats, pushed)
    ensures kind.IntKind? && cell.Float? ==>
      Matches(lib, seen + [cell], FloatKind, blanks, ints, Converted(lib, ints) + [f], pushed)
    ensures kind.FloatKind? ==> Matches(lib, seen + [cell], FloatKind, blanks, ints, floats + [f], pushed)
    ensures kind.CategoryKind? ==> Matches(lib, seen + [cell], SkipKind, blanks, ints, floats, pushed)
  {
    KindStep(seen, cell);
    MapsStep(lib, seen, cell);
    KindMeans(seen);
    if kind.IntKind? {
      PromoteInts(lib, seen);
    } else if kind.BlankKind? {
      PromoteBlanks(lib, seen);
    }
  }

  class Column<F> {
    const lib: FloatLib<F>
    const category: Categories.Category
    var kind: Kind
    var blanks: nat
    var ints: seq<int>
    var floats: seq<F>
    /** The cells pushed so far. */
    ghost var seen: seq<Cell<F>>

    ghost predicate Valid()
      reads this, category
    {
      category.Valid() && Matches(lib, seen, kind, blanks, ints, floats, category.pushed)
    }

    constructor (lib: FloatLib<F>)
      ensures Valid() && seen == [] && this.lib == lib && fresh(category)
    {
      this.lib := lib;
      category := new Categories.Category();
      kind := EmptyKind;
      blanks := 0;
      ints := [];
      floats := [];
      seen := [];
      StartMatches(lib);
    }

    method PushText(token: string)
      requires Valid() && !kind.SkipKind?
      modifies this, category
      ensures Valid() && seen == old(seen) + [Text(token)]
    {
      TextMatches(lib, seen, kind, blanks, ints, floats, category.pushed, token);
      seen := seen + [Text(token)];
      match kind
      case EmptyKind =>
        kind := CategoryKind;
        category.PushLabel(token);
      case BlankKind =>
        kind := CategoryKind;
        PushBlanksAsMissing();
        category.PushLabel(token);
      case CategoryKind =>
        category.PushLabel(token);
      case IntKind =>
        kind := SkipKind;
      case FloatKind =>
        kind := SkipKind;
    }

    /** A missing cell for every blank seen before the first label. */
    method PushBlanksAsMissing()
      requires category.Valid() && category.pushed == []
      modifies category
      ensures category.Valid() && category.pushed == MissingItems(blanks)
    {
      for i := 0 to blanks
        invariant category.Valid() && category.pushed == MissingItems(i)
      {
        category.PushMissing();
      }
    }

    method PushBlank()
      requires Valid() && !kind.SkipKind?
      modifies this, category
      ensures Valid() && seen == old(seen) + [Blank]
    {
      BlankMatches(lib, seen, kind, blanks, ints, floats, category.pushed);
      seen := seen + [Blank];
      match kind
      case EmptyKind =>
        kind := BlankKind;
        blanks := 1;
      case BlankKind =>
        blanks := blanks + 1;
      case IntKind =>
        floats := Converted(lib, ints);
        floats := floats + [lib.nan];
        kind := FloatKind;
      case FloatKind =>
        floats := floats + [lib.nan];
      case CategoryKind =>
        category.PushMissing();
    }

    method PushInt(v: int)
      requires Valid() && !kind.SkipKind?
      modifies this
      ensures Valid() && seen == old(seen) + [Int(v)]
    {
      NumberMatches(lib, seen, kind, blanks, ints, floats, category.pushed, Int(v), lib.ofInt(v));
      seen := seen + [Int(v)];
      match kind
      case EmptyKind =>
        kind := IntKind;
        ints := [v];
      case BlankKind =>
        floats := Nans(lib, blanks);
        floats := floats + [lib.ofInt(v)];
        kind := FloatKind;
      case IntKind =>
        ints := ints + [v];
      case FloatKind =>
        floats := floats + [lib.ofInt(v)];
      case CategoryKind =>
        kind := SkipKind;
    }

    method PushFloat(f: F)
      requires Valid() && !kind.SkipKind?
      modifies this
      ensures Valid() && seen == old(seen) + [Float(f)]
    {
      NumberMatches(lib, seen, kind, blanks, ints, floats, category.pushed, Float(f), f);
      seen := seen + [Float(f)];
      match kind
      case EmptyKind =>
        kind := FloatKind;
        floats := [f];
      case BlankKind =>
        floats := Nans(lib, blanks);
        floats := floats + [f];
        kind := FloatKind;
      case IntKind =>
        floats := Converted(lib, ints);
        floats := floats + [f];
        kind := FloatKind;
      case FloatKind =>
        floats := floats + [f];
      case CategoryKind =>
        kind := SkipKind;
    }

    /** A dropped column looks at nothing more; otherwise a refused token is an error. */
    method Push(field: string) returns (ok: bool)
      requires Valid()
      modifies this, category
      ensures Valid()
      ensures ok == (KindOf(old(seen)).SkipKind? || !Classify(lib, field).Refused?)
      ensures seen == if ok then old(seen) + [Classify(lib, field)] else old(seen)
    {
      ok := true;
      if kind.SkipKind? {
        KindStep(seen, Classify(lib, field));
        seen := seen + [Classify(lib, field)];
        return;
      }
      match Classify(lib, field)
      case Text(token) => PushText(token);
      case Blank => PushBlank();
      case Int(v) => PushInt(v);
      case Float(f) => PushFloat(f);
      case Refused => ok := false;
    }

    method Finish() returns (r: Option<Data<F>>)
      requires Valid()
      ensures r == FinishOf(lib, seen)
    {
      match kind
      case IntKind =>
        return Some(IntData(ints));
      case FloatKind =>
        if AllNan(lib, floats) {
          return None;
        }
        return Some(FloatData(floats));
      case CategoryKind =>
        var finished := category.Finish();
        if finished.None? {
          return None;
        }
        return Some(LabelData(finished.value.0, finished.value.1));
      case _ =>
        return None;
    }
  }

  function CellsOf<F>(lib: FloatLib<F>, fields: seq<string>): (cells: seq<Cell<F>>)
    ensures |cells| == |fields|
  {
    seq(|fields|, i requires 0 <= i < |fields| => Classify(lib, fields[i]))
  }

  /** No refused token is met before the column is dropped. */
  ghost predicate Readable<F>(cells: seq<Cell<F>>) {
    forall i :: 0 <= i < |cells| && cells[i].Refused? ==> KindOf(cells[..i]).SkipKind?
  }

  lemma ReadableStep<F>(cells: seq<Cell<F>>, cell: Cell<F>)
    ensures Readable(cells + [cell])
       <==> Readable(cells) && (KindOf(cells).SkipKind? || !cell.Refused?)
  {
    var now := cells + [cell];
    assert now[..|cells|] == cells;
    assert forall i :: 0 <= i < |cells| ==> now[i] == cells[i] && now[..i] == cells[..i];
    if Readable(now) {
      assert now[|cells|] == cell;
    }
  }

  lemma ReadablePrefix<F>(cells: seq<Cell<F>>, n: nat)
    requires n <= |cells| && Readable(cells)
    ensures Readable(cells[..n])
  {
    forall i | 0 <= i < n && cells[..n][i].Refused?
      ensures KindOf(cells[..n][..i]).SkipKind?
    {
      assert cells[..n][..i] == cells[..i];
    }
  }

  lemma OneMoreField<F>(lib: FloatLib<F>, fields: seq<string>, n: nat)
    requires n < |fields|
    ensures CellsOf(lib, fields[..n + 1]) == CellsOf(lib, fields[..n]) + [Classify(lib, fields[n])]
    ensures CellsOf(lib, fields[..n + 1]) == CellsOf(lib, fields)[..n + 1]
  {
  }

  /** A dropped column stays dropped. */
  lemma SkipStays<F>(cells: seq<Cell<F>>, n: nat)
    requires n <= |cells| && KindOf(cells[..n]).SkipKind?
    ensures KindOf(cells).SkipKind?
  {
    assert forall i :: 0 <= i < n ==> cells[..n][i] == cells[i];
  }

  /** What importing a column of these cells gives, errors included. */
  ghost function ImportOf<F>(lib: FloatLib<F>, cells: seq<Cell<F>>): Result<Option<Data<F>>, ()> {
    if Readable(cells) then Ok(FinishOf(lib, cells)) else Err(())
  }

  /** One column pushed field by field: `Err` when a token is refused. */
  method ImportColumn<F>(lib: FloatLib<F>, fields: seq<string>) returns (r: Result<Option<Data<F>>, ()>)
    ensures r.Ok? <==> Readable(CellsOf(lib, fields))
    ensures r == ImportOf(lib, CellsOf(lib, fields))
  {
    var column := new Column(lib);
    for i := 0 to |fields|
      invariant fresh(column) && fresh(column.category) && column.lib == lib
      invariant column.Valid() && column.seen == CellsOf(lib, fields[..i])
      invariant Readable(CellsOf(lib, fields[..i]))
    {
      OneMoreField(lib, fields, i);
      ReadableStep(column.seen, Classify(lib, fields[i]));
      var ok := column.Push(fields[i]);
      if !ok {
        if Readable(CellsOf(lib, fields)) {
          ReadablePrefix(CellsOf(lib, fields), i + 1);
        }
        return Err(());
      }
    }
    assert fields[..|fields|] == fields;
    var finished := column.Finish();
    r := Ok(finished);
  }

  // ----- what the specification promises -----

  /** A lone integer column is never empty, so the empty check of the integer state never fires. */
  lemma IntColumnNotEmpty<F>(cells: seq<Cell<F>>)
    requires KindOf(cells).IntKind?
    ensures Ints(cells) != []
  {
  }

  lemma OccursAt<F>(p: seq<Cell<F>>, q: seq<Cell<F>>, i: nat) returns (j: nat)
    requires multiset(p) == multiset(q) && i < |p|
    ensures j < |q| && q[j] == p[i]
  {
    assert p[i] in multiset(p);
    assert p[i] in multiset(q);
    j :| 0 <= j < |q| && q[j] == p[i];
  }

  lemma OccursIgnoresOrder<F>(p: seq<Cell<F>>, q: seq<Cell<F>>)
    requires multiset(p) == multiset(q)
    ensures HasText(p) ==> HasText(q)
    ensures HasBlank(p) ==> HasBlank(q)
    ensures HasInt(p) ==> HasInt(q)
    ensures HasFloat(p) ==> HasFloat(q)
  {
    forall i | 0 <= i < |p|
      ensures p[i].Text? ==> HasText(q)
      ensures p[i].Blank? ==> HasBlank(q)
      ensures p[i].Int? ==> HasInt(q)
      ensures p[i].Float? ==> HasFloat(q)
    {
      var j := OccursAt(p, q, i);
    }
  }

  /** The kind of a column does not depend on the order of its cells. */
  lemma KindIgnoresOrder<F>(p: seq<Cell<F>>, q: seq<Cell<F>>)
    requires multiset(p) == multiset(q)
    ensures KindOf(p) == KindOf(q)
  {
    OccursIgnoresOrder(p, q);
    OccursIgnoresOrder(q, p);
  }

  ghost predicate SameLabels<F>(p: seq<Cell<F>>, q: seq<Cell<F>>) {
    forall l :: Some(l) in Items(p) <==> Some(l) in Items(q)
  }

  lemma LabelsIgnoreOrder<F>(p: seq<Cell<F>>, q: seq<Cell<F>>)
    requires multiset(p) == multiset(q)
    ensures SameLabels(p, q)
  {
    forall l
      ensures Some(l) in Items(p) <==> Some(l) in Items(q)
    {
      if Some(l) in Items(p) {
        LabelOccurs(p, q, l);
      } else if Some(l) in Items(q) {
        LabelOccurs(q, p, l);
      }
    }
  }

  lemma LabelOccurs<F>(p: seq<Cell<F>>, q: seq<Cell<F>>, name: string)
    requires multiset(p) == multiset(q) && Some(name) in Items(p)
    ensures Some(name) in Items(q)
  {
    var i :| 0 <= i < |p| && Items(p)[i] == Some(name);
    var j := OccursAt(p, q, i);
    assert Items(q)[j] == Some(name);
  }

  lemma NanIgnoresOrder<F>(lib: FloatLib<F>, p: seq<Cell<F>>, q: seq<Cell<F>>)
    requires multiset(p) == multiset(q)
    ensures AllNan(lib, Floats(lib, p)) ==> AllNan(lib, Floats(lib, q))
  {
    if AllNan(lib, Floats(lib, p)) {
      forall j | 0 <= j < |q|
        ensures lib.isNan(Floats(lib, q)[j])
      {
        var i := OccursAt(q, p, j);
        assert lib.isNan(Floats(lib, p)[i]);
      }
    }
  }

  /** Whether the label dictionary of the cells is kept. */
  predicate KeepsLabels<F>(cells: seq<Cell<F>>) {
    Categories.FinishOf(Items(cells)).Some?
  }

  lemma KeepsLabelsIgnoresOrder<F>(p: seq<Cell<F>>, q: seq<Cell<F>>)
    requires multiset(p) == multiset(q)
    ensures KeepsLabels(p) == KeepsLabels(q)
  {
    LabelsIgnoreOrder(p, q);
    Categories.OverflowIgnoresOrder(Items(p), Items(q));
  }

  /** Dtype of a kept column: 0 integers, 1 floats, 2 label codes. */
  function Dtype<F>(data: Data<F>): nat {
    match data case IntData(_) => 0 case FloatData(_) => 1 case LabelData(_, _) => 2
  }

  lemma ShapeOf<F>(lib: FloatLib<F>, cells: seq<Cell<F>>)
    ensures FinishOf(lib, cells).Some? <==>
      match KindOf(cells)
      case IntKind => true
      case FloatKind => !AllNan(lib, Floats(lib, cells))
      case CategoryKind => KeepsLabels(cells)
      case _ => false
    ensures FinishOf(lib, cells).Some? ==>
      Dtype(FinishOf(lib, cells).value) == if KindOf(cells).IntKind? then 0 else if KindOf(cells).FloatKind? then 1 else 2
  {
  }

  /** Reordering the cells never changes whether a column is kept or its dtype. */
  lemma ReorderKeepsShape<F>(lib: FloatLib<F>, p: seq<Cell<F>>, q: seq<Cell<F>>)
    requires multiset(p) == multiset(q)
    ensures KindOf(p) == KindOf(q)
    ensures FinishOf(lib, p).Some? <==> FinishOf(lib, q).Some?
    ensures FinishOf(lib, p).Some? ==> Dtype(FinishOf(lib, p).value) == Dtype(FinishOf(lib, q).value)
  {
    KindIgnoresOrder(p, q);
    NanIgnoresOrder(lib, p, q);
    NanIgnoresOrder(lib, q, p);
    KeepsLabelsIgnoresOrder(p, q);
    ShapeOf(lib, p);
    ShapeOf(lib, q);
  }

  /** Equal cells carry equal numbers. */
  lemma ReorderNumbers<F>(lib: FloatLib<F>, p: seq<Cell<F>>, q: seq<Cell<F>>, i: nat, j: nat)
    requires i < |p| && j < |q| && p[i] == q[j]
    ensures FinishOf(lib, p).Some? && FinishOf(lib, q).Some? ==>
      match (FinishOf(lib, p).value, FinishOf(lib, q).value)
      case (IntData(x), IntData(y)) => i < |x| && j < |y| && x[i] == y[j]
      case (FloatData(x), FloatData(y)) => i < |x| && j < |y| && x[i] == y[j]
      case _ => true
  {
  }

  lemma LabelCodes<F>(lib: FloatLib<F>, cells: seq<Cell<F>>)
    requires FinishOf(lib, cells).Some? && FinishOf(lib, cells).value.LabelData?
    ensures FinishOf(lib, cells).value.codes == Categories.ValuesOf(Items(cells))
    ensures FinishOf(lib, cells).value.note == CategoryNote.Note(Categories.Dictionary(Items(cells)))
  {
  }

  ghost predicate IsCode(items: seq<Categories.Item>, value: int) {
    value == Categories.CATEGORY_MISSING || value in Categories.Dictionary(items).Values
  }

  /** Equal cells of a reordered column carry codes that one renaming turns into each other. */
  lemma ReorderLabels<F>(lib: FloatLib<F>, p: seq<Cell<F>>, q: seq<Cell<F>>, i: nat, j: nat)
    requires multiset(p) == multiset(q)
    requires i < |p| && j < |q| && p[i] == q[j]
    requires FinishOf(lib, p).Some? && FinishOf(lib, p).value.LabelData?
    requires FinishOf(lib, q).Some? && FinishOf(lib, q).value.LabelData?
    ensures SameLabels(p, q)
    ensures var x, y := FinishOf(lib, p).value.codes, FinishOf(lib, q).value.codes;
            i < |x| && j < |y| && IsCode(Items(p), x[i]) && IsCode(Items(q), y[j])
            && Categories.Rename(Items(p), Items(q), x[i]) == y[j]
            && Categories.Rename(Items(q), Items(p), y[j]) == x[i]
  {
    LabelsIgnoreOrder(p, q);
    LabelCodes(lib, p);
    LabelCodes(lib, q);
    assert Items(p)[i] == Items(q)[j];
    Categories.ReorderRenames(Items(p), Items(q), i, j);
  }
}
