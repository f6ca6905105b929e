/** The category dictionary: first-seen codes under a cap on the printed note. */
module Categories {
  import opened Wrappers
  import opened CategoryNote
  import opened SortedStrings
  import opened NoteLength

  const ATTR_STRING_BYTES := 1024
  const CATEGORY_MISSING := -1

  /** One pushed cell: a label, or `None` for a missing one. */
  type Item = Option<string>

  // ----- the whole-column specification -----

  /** The distinct labels in the order of their first occurrence. */
  function FirstSeen(pushed: seq<Item>): (labels: seq<string>)
    ensures Distinct(labels)
    ensures forall l :: l in labels <==> Some(l) in pushed
  {
    if pushed == [] then
      []
    else
      var n := |pushed| - 1;
      var before := FirstSeen(pushed[..n]);
      assert pushed == pushed[..n] + [pushed[n]];
      match pushed[n]
      case None => before
      case Some(l) => if l in before then before else before + [l]
  }

  /** The dictionary of a column. */
  function Dictionary(pushed: seq<Item>): map<string, nat> {
    CodesOf(FirstSeen(pushed))
  }

  function CodeOf(labels: seq<string>, item: Item): int
    requires item.Some? ==> item.value in labels
  {
    match item
    case None => CATEGORY_MISSING
    case Some(l) => IndexOf(labels, l)
  }

  /** Every cell under the dictionary of the whole column. */
  function ValuesOf(pushed: seq<Item>): seq<int> {
    seq(|pushed|, i requires 0 <= i < |pushed| => CodeOf(FirstSeen(pushed), pushed[i]))
  }

  /** The check on the final dictionary. */
  predicate Overflows(pushed: seq<Item>) {
    |Note(Dictionary(pushed))| > ATTR_STRING_BYTES
  }

  /** What the column is imported as. */
  function FinishOf(pushed: seq<Item>): Option<(seq<int>, string)> {
    if Overflows(pushed) || FirstSeen(pushed) == [] then
      None
    else
      Some((ValuesOf(pushed), Note(Dictionary(pushed))))
  }

  // ----- one more cell -----

  lemma Pushed(before: seq<Item>, item: Item)
    ensures FirstSeen(before + [item])
         == if item.None? || item.value in FirstSeen(before) then FirstSeen(before)
            else FirstSeen(before) + [item.value]
  {
    assert (before + [item])[..|before|] == before;
  }

  lemma {:induction false} IndexStable(labels: seq<string>, more: seq<string>, name: string)
    requires name in labels
    ensures IndexOf(labels + more, name) == IndexOf(labels, name)
  {
    if labels[0] != name {
      assert (labels + more)[1..] == labels[1..] + more;
      IndexStable(labels[1..], more, name);
    }
  }

  lemma {:induction false} IndexOfNew(labels: seq<string>, name: string)
    requires name !in labels
    ensures IndexOf(labels + [name], name) == |labels|
  {
    if labels != [] {
      assert (labels + [name])[1..] == labels[1..] + [name];
      IndexOfNew(labels[1..], name);
    }
  }

  lemma CodesOfNew(labels: seq<string>, name: string)
    ensures CodesOf(labels + [name]) == CodesOf(labels)[name := |labels|]
  {
    assert (labels + [name])[..|labels|] == labels;
  }

  lemma CodesOfSize(labels: seq<string>)
    requires Distinct(labels)
    ensures |CodesOf(labels)| == |labels|
  {
    CodesOfKeys(labels);
    DistinctSize(labels);
  }

  /** Codes already given never change. */
  lemma ValuesStable(before: seq<Item>, item: Item)
    ensures ValuesOf(before + [item]) == ValuesOf(before) + [CodeOf(FirstSeen(before + [item]), item)]
  {
    Pushed(before, item);
    var labels, now := FirstSeen(before), FirstSeen(before + [item]);
    forall i | 0 <= i < |before|
      ensures CodeOf(now, (before + [item])[i]) == CodeOf(labels, before[i])
    {
      if before[i].Some? {
        assert Some(before[i].value) in before;
        IndexStable(labels, now[|labels|..], before[i].value);
        assert now == labels + now[|labels|..];
      }
    }
  }

  /** The check on the final dictionary, as arithmetic on the labels. */
  predicate TooLong(labels: seq<string>) {
    ListingLength(labels) > ATTR_STRING_BYTES
  }

  lemma TooLongIsOverflow(pushed: seq<Item>)
    ensures Overflows(pushed) == TooLong(FirstSeen(pushed))
  {
    NoteOfListing(FirstSeen(pushed));
  }

  /** Once the note is too long it stays too long. */
  lemma OverflowStays(before: seq<Item>, item: Item)
    requires TooLong(FirstSeen(before))
    ensures TooLong(FirstSeen(before + [item]))
  {
    Pushed(before, item);
    if item.Some? && item.value !in FirstSeen(before) {
      LongerListing(FirstSeen(before), item.value);
    }
  }

  lemma AfterMissing(before: seq<Item>)
    ensures FirstSeen(before + [None]) == FirstSeen(before)
    ensures ValuesOf(before + [None]) == ValuesOf(before) + [CATEGORY_MISSING]
  {
    Pushed(before, None);
    ValuesStable(before, None);
  }

  lemma AfterKnown(before: seq<Item>, name: string)
    requires name in Dictionary(before)
    ensures FirstSeen(before + [Some(name)]) == FirstSeen(before)
    ensures ValuesOf(before + [Some(name)]) == ValuesOf(before) + [Dictionary(before)[name]]
  {
    CodesOfKeys(FirstSeen(before));
    CodeIsIndex(FirstSeen(before), name);
    Pushed(before, Some(name));
    ValuesStable(before, Some(name));
  }

  lemma AfterNew(before: seq<Item>, name: string)
    requires name !in Dictionary(before)
    ensures FirstSeen(before + [Some(name)]) == FirstSeen(before) + [name]
    ensures Dictionary(before + [Some(name)]) == Dictionary(before)[name := |Dictionary(before)|]
    ensures ValuesOf(before + [Some(name)]) == ValuesOf(before) + [|Dictionary(before)|]
  {
    var labels := FirstSeen(before);
    CodesOfKeys(labels);
    Pushed(before, Some(name));
    ValuesStable(before, Some(name));
    CodesOfSize(labels);
    CodesOfNew(labels, name);
    IndexOfNew(labels, name);
  }

  // ----- the online machine -----

  /** The fields of the machine are those of the whole-column specification. */
  ghost predicate Matches(pushed: seq<Item>, codes: map<string, nat>, values: seq<int>, overflow: bool) {
    && overflow == TooLong(FirstSeen(pushed))
    && codes == (if overflow then map[] else Dictionary(pushed))
    && values == if overflow then [] else ValuesOf(pushed)
  }

  lemma StartMatches()
    ensures Matches([], map[], [], false)
  {
    assert SumOf([], LabelWeight) == DigitsBelow(0) == 0;
  }

  lemma MissingMatches(pushed: seq<Item>, codes: map<string, nat>, values: seq<int>, overflow: bool)
    requires Matches(pushed, codes, values, overflow)
    ensures Matches(pushed + [None], codes, if overflow then values else values + [CATEGORY_MISSING], overflow)
  {
    AfterMissing(pushed);
  }

  lemma OverflowMatches(pushed: seq<Item>, name: string)
    requires Matches(pushed, map[], [], true)
    ensures Matches(pushed + [Some(name)], map[], [], true)
  {
    OverflowStays(pushed, Some(name));
  }

  lemma KnownMatches(pushed: seq<Item>, codes: map<string, nat>, values: seq<int>, name: string)
    requires Matches(pushed, codes, values, false) && name in codes
    ensures Matches(pushed + [Some(name)], codes, values + [codes[name]], false)
  {
    AfterKnown(pushed, name);
  }

  lemma NewMatches(pushed: seq<Item>, codes: map<string, nat>, values: seq<int>, name: string)
    requires Matches(pushed, codes, values, false) && name !in codes
    ensures name !in FirstSeen(pushed)
    ensures CodesOf(FirstSeen(pushed) + [name]) == codes[name := |codes|]
    ensures if TooLong(FirstSeen(pushed) + [name]) then Matches(pushed + [Some(name)], map[], [], true)
            else Matches(pushed + [Some(name)], codes[name := |codes|], values + [|codes|], false)
  {
    CodesOfKeys(FirstSeen(pushed));
    AfterNew(pushed, name);
  }

  /** Bytes of the printed note; `labels` lists the dictionary. */
  method NoteBytes(codes: map<string, nat>, ghost labels: seq<string>) returns (bytes: nat)
    requires Distinct(labels) && codes == CodesOf(labels)
    ensures bytes == ListingLength(labels)
  {
    NoteOfListing(labels);
    var note := Note(codes);
    bytes := |note|;
  }

  class Category {
    var codes: map<string, nat>
    var values: seq<int>
    var overflow: bool
    /** Every cell pushed so far. */
    ghost var pushed: seq<Item>

    ghost predicate Valid()
      reads this
    {
      Matches(pushed, codes, values, overflow)
    }

    constructor ()
      ensures Valid() && pushed == []
    {
      codes := map[];
      values := [];
      overflow := false;
      pushed := [];
      StartMatches();
    }

    method PushMissing()
      requires Valid()
      modifies this
      ensures Valid() && pushed == old(pushed) + [None]
    {
      MissingMatches(pushed, codes, values, overflow);
      if !overflow {
        values := values + [CATEGORY_MISSING];
      }
      pushed := pushed + [None];
    }

    /** A label seen for the first time gets the next code, unless the note grows past the cap. */
    method PushNewLabel(name: string)
      requires Valid() && !overflow && name !in codes
      modifies this
      ensures Valid() && pushed == old(pushed) + [Some(name)]
    {
      NewMatches(pushed, codes, values, name);
      ghost var labels := FirstSeen(pushed) + [name];
      pushed := pushed + [Some(name)];
      var code := |codes|;
      codes := codes[name := code];
      var bytes := NoteBytes(codes, labels);
      if bytes > ATTR_STRING_BYTES {
        overflow := true;
        codes := map[];
        values := [];
      } else {
        values := values + [code];
      }
    }

    method PushLabel(name: string)
      requires Valid()
      modifies this
      ensures Valid() && pushed == old(pushed) + [Some(name)]
    {
      if overflow {
        OverflowMatches(pushed, name);
        pushed := pushed + [Some(name)];
      } else if name in codes {
        KnownMatches(pushed, codes, values, name);
        pushed := pushed + [Some(name)];
        values := values + [codes[name]];
      } else {
        PushNewLabel(name);
      }
    }

    method Finish() returns (r: Option<(seq<int>, string)>)
      requires Valid()
      ensures r == FinishOf(pushed)
    {
      CodesOfKeys(FirstSeen(pushed));
      NoKeys(FirstSeen(pushed));
      TooLongIsOverflow(pushed);
      if overflow || codes == map[] {
        return None;
      }
      return Some((values, Note(codes)));
    }
  }

  /** A column of labels and missing cells, pushed one at a time. */
  method ImportLabels(labels: seq<Item>) returns (r: Option<(seq<int>, string)>)
    ensures r == FinishOf(labels)
  {
    var column := new Category();
    for i := 0 to |labels|
      invariant fresh(column) && column.Valid() && column.pushed == labels[..i]
    {
      assert labels[..i + 1] == labels[..i] + [labels[i]];
      if labels[i].None? {
        column.PushMissing();
      } else {
        column.PushLabel(labels[i].value);
      }
    }
    assert labels[..|labels|] == labels;
    r := column.Finish();
  }

  // ----- what the specification promises -----

  /** Codes are positions in the order of first occurrence. */
  lemma DictionaryAt(pushed: seq<Item>, name: string)
    ensures name in Dictionary(pushed) <==> Some(name) in pushed
    ensures name in Dictionary(pushed) ==>
      name in FirstSeen(pushed) && Dictionary(pushed)[name] == IndexOf(FirstSeen(pushed), name)
  {
    var labels := FirstSeen(pushed);
    CodesOfKeys(labels);
    if name in labels {
      CodeIsIndex(labels, name);
    }
  }

  /** The codes are the numbers 0 .. n-1, one per distinct label, and never the missing code. */
  lemma DictionaryIsNumbering(pushed: seq<Item>)
    ensures IsNumbering(Dictionary(pushed))
    ensures forall l, k | l in Dictionary(pushed) && k in Dictionary(pushed) ::
              Dictionary(pushed)[l] == Dictionary(pushed)[k] ==> l == k
    ensures CATEGORY_MISSING !in Dictionary(pushed).Values
  {
    var labels, codes := FirstSeen(pushed), Dictionary(pushed);
    CodesOfSize(labels);
    forall l | l in codes
      ensures l in labels && codes[l] == IndexOf(labels, l)
    {
      DictionaryAt(pushed, l);
    }
    forall code | 0 <= code < |codes|
      ensures code in codes.Values
    {
      CodeAt(labels, code);
      assert codes[labels[code]] == code;
    }
  }

  /** The verdict of the cap depends on the set of labels, not on order or repetition. */
  lemma OverflowIgnoresOrder(p: seq<Item>, q: seq<Item>)
    requires forall l :: Some(l) in p <==> Some(l) in q
    ensures Overflows(p) == Overflows(q)
    ensures FinishOf(p).Some? == FinishOf(q).Some?
  {
    assert KeySet(FirstSeen(p)) == KeySet(FirstSeen(q));
    LengthIgnoresOrder(FirstSeen(p), FirstSeen(q));
    NoKeys(FirstSeen(p));
    NoKeys(FirstSeen(q));
  }

  /** What a reader of the imported column recovers from a value. */
  ghost function DecodeValue(codes: map<string, nat>, value: int): Item {
    if value == CATEGORY_MISSING then None
    else if value in codes.Values then Some(LabelOf(codes, value))
    else None
  }

  ghost function Decode(codes: map<string, nat>, values: seq<int>): seq<Item> {
    seq(|values|, i requires 0 <= i < |values| => DecodeValue(codes, values[i]))
  }

  /** Decoding the values gives back every label and every missing cell. */
  lemma DecodeValues(pushed: seq<Item>)
    ensures Decode(Dictionary(pushed), ValuesOf(pushed)) == pushed
  {
    DictionaryIsNumbering(pushed);
    var labels, codes := FirstSeen(pushed), Dictionary(pushed);
    forall i | 0 <= i < |pushed|
      ensures DecodeValue(codes, ValuesOf(pushed)[i]) == pushed[i]
    {
      if pushed[i].Some? {
        var l := pushed[i].value;
        assert Some(l) in pushed;
        DictionaryAt(pushed, l);
        assert codes[LabelOf(codes, codes[l])] == codes[l];
      }
    }
  }

  /** Values and note together determine the column: nothing is lost. */
  lemma FinishInjective(p: seq<Item>, q: seq<Item>)
    requires FinishOf(p).Some? && FinishOf(p) == FinishOf(q)
    ensures p == q
  {
    NoteInjective(Dictionary(p), Dictionary(q));
    DecodeValues(p);
    DecodeValues(q);
  }

  /** The code a column `q` gives to what a column `p` calls `value`. */
  ghost function Rename(p: seq<Item>, q: seq<Item>, value: int): int
    requires forall l :: Some(l) in p ==> Some(l) in q
    requires value == CATEGORY_MISSING || value in Dictionary(p).Values
  {
    if value == CATEGORY_MISSING then
      CATEGORY_MISSING
    else
      var name := LabelOf(Dictionary(p), value);
      DictionaryAt(p, name);
      DictionaryAt(q, name);
      Dictionary(q)[name]
  }

  /**
   Reordering a column changes the values by that reordering and one renaming of codes: equal
   cells of the two columns carry renamed values, and the renaming is undone by its reverse.
   */
  lemma ReorderRenames(p: seq<Item>, q: seq<Item>, i: nat, j: nat)
    requires forall l :: Some(l) in p <==> Some(l) in q
    requires i < |p| && j < |q| && p[i] == q[j]
    ensures FinishOf(p).Some? == FinishOf(q).Some?
    ensures ValuesOf(p)[i] == CATEGORY_MISSING || ValuesOf(p)[i] in Dictionary(p).Values
    ensures ValuesOf(q)[j] == CATEGORY_MISSING || ValuesOf(q)[j] in Dictionary(q).Values
    ensures Rename(p, q, ValuesOf(p)[i]) == ValuesOf(q)[j]
    ensures Rename(q, p, ValuesOf(q)[j]) == ValuesOf(p)[i]
  {
    OverflowIgnoresOrder(p, q);
    RenameAt(p, q, i, j);
    RenameAt(q, p, j, i);
  }

  lemma RenameAt(p: seq<Item>, q: seq<Item>, i: nat, j: nat)
    requires forall l :: Some(l) in p ==> Some(l) in q
    requires i < |p| && j < |q| && p[i] == q[j]
    ensures ValuesOf(p)[i] == CATEGORY_MISSING || ValuesOf(p)[i] in Dictionary(p).Values
    ensures Rename(p, q, ValuesOf(p)[i]) == ValuesOf(q)[j]
  {
    DictionaryIsNumbering(p);
    if p[i].Some? {
      var l := p[i].value;
      assert Some(l) in p && Some(l) in q;
      DictionaryAt(p, l);
      DictionaryAt(q, l);
      assert l in Dictionary(p) && Dictionary(p)[l] == ValuesOf(p)[i];
      assert LabelOf(Dictionary(p), ValuesOf(p)[i]) == l;
      assert l in Dictionary(q) && Dictionary(q)[l] == ValuesOf(q)[j];
    }
  }
}
