/** What a reader of an imported label column finds: every label and every missing cell. */
module CategoryReading {
  import opened Wrappers
  import opened CategoryNote
  import opened NoteLength
  import opened NoteReader
  import opened Categories

  /** The value stored for a cell: -1 when it is missing, otherwise the code the note gives its label. */
  ghost predicate ReadsAs(codes: map<string, int>, value: int, item: Item) {
    match item
    case None => value == -1
    case Some(name) => name in codes && codes[name] == value
  }

  lemma ValueReadsAs(pushed: seq<Item>, i: nat)
    requires i < |pushed|
    ensures ReadsAs(Dictionary(pushed), ValuesOf(pushed)[i], pushed[i])
  {
    if pushed[i].Some? {
      assert Some(pushed[i].value) in pushed;
      DictionaryAt(pushed, pushed[i].value);
    }
  }

  /**
   A kept column reads back: a JSON reader of the note finds a dictionary of exactly the labels of
   the column, with distinct codes from 0 on, and every value is the code of its cell's label, or -1.
   */
  lemma FinishReadsBack(pushed: seq<Item>)
    requires FinishOf(pushed).Some?
    ensures var (values, note) := FinishOf(pushed).value;
            |note| <= 1024 && |values| == |pushed| && ReadNote(note).Some?
            && var (codes, missing) := ReadNote(note).value;
            missing == -1
            && (forall i :: 0 <= i < |pushed| ==> ReadsAs(codes, values[i], pushed[i]))
            && (forall name :: name in codes <==> Some(name) in pushed)
            && (forall name :: name in codes ==> 0 <= codes[name] < |codes|)
            && (forall a, b :: a in codes && b in codes && codes[a] == codes[b] ==> a == b)
  {
    NoteReads(Dictionary(pushed));
    DictionaryIsNumbering(pushed);
    forall i | 0 <= i < |pushed|
      ensures ReadsAs(Dictionary(pushed), ValuesOf(pushed)[i], pushed[i])
    {
      ValueReadsAs(pushed, i);
    }
    forall name
      ensures name in Dictionary(pushed) <==> Some(name) in pushed
    {
      DictionaryAt(pushed, name);
    }
  }

  lemma SameLabels(pushed: seq<Item>, codes: map<string, nat>)
    requires forall name :: name in codes <==> Some(name) in pushed
    ensures Dictionary(pushed).Keys == codes.Keys
  {
    forall name
      ensures name in Dictionary(pushed) <==> name in codes
    {
      DictionaryAt(pushed, name);
    }
  }

  /** Exactly when a label column is kept: it has a label, and a note of its labels has at most 1024 bytes. */
  lemma KeptExactly(pushed: seq<Item>, codes: map<string, nat>)
    requires IsNumbering(codes) && forall name :: name in codes <==> Some(name) in pushed
    ensures FinishOf(pushed).Some? <==> (exists name :: Some(name) in pushed) && |Note(codes)| <= 1024
  {
    DictionaryIsNumbering(pushed);
    SameLabels(pushed, codes);
    LengthIgnoresNumbering(Dictionary(pushed), codes);
    HasLabels(pushed);
  }

  lemma HasLabels(pushed: seq<Item>)
    ensures FirstSeen(pushed) != [] <==> exists name :: Some(name) in pushed
  {
    var labels := FirstSeen(pushed);
    assert labels != [] ==> labels[0] in labels;
  }

  lemma {:induction false} FirstSeenPrefix(pushed: seq<Item>, n: nat)
    requires n <= |pushed|
    ensures FirstSeen(pushed[..n]) <= FirstSeen(pushed)
  {
    if n == |pushed| {
      assert pushed[..n] == pushed;
    } else {
      var m := |pushed| - 1;
      FirstSeenPrefix(pushed[..m], n);
      assert pushed[..m][..n] == pushed[..n];
    }
  }

  lemma SeenBefore(pushed: seq<Item>, i: nat, j: nat)
    requires i < j < |pushed| && pushed[i].Some? && pushed[j].Some?
    requires forall k :: 0 <= k < j ==> pushed[k] != pushed[j]
    ensures var early := FirstSeen(pushed[..j]); pushed[i].value in early && pushed[j].value !in early
    ensures pushed[i].value in FirstSeen(pushed) && pushed[j].value in FirstSeen(pushed)
  {
    assert pushed[..j][i] == pushed[i];
    assert pushed[j] !in pushed[..j];
  }

  /** Codes are given in the order of first occurrence. */
  lemma CodesFollowFirstOccurrence(pushed: seq<Item>, i: nat, j: nat)
    requires i < j < |pushed| && pushed[i].Some? && pushed[j].Some?
    requires forall k :: 0 <= k < j ==> pushed[k] != pushed[j]
    ensures var codes := Dictionary(pushed);
            pushed[i].value in codes && pushed[j].value in codes && codes[pushed[i].value] < codes[pushed[j].value]
  {
    SeenBefore(pushed, i, j);
    FirstSeenPrefix(pushed, j);
    DictionaryAt(pushed, pushed[i].value);
    DictionaryAt(pushed, pushed[j].value);
    IndexesOrdered(FirstSeen(pushed[..j]), FirstSeen(pushed), pushed[i].value, pushed[j].value);
  }

  lemma IndexesOrdered(early: seq<string>, all: seq<string>, a: string, b: string)
    requires early <= all && a in early && b !in early && a in all && b in all
    ensures IndexOf(all, a) < IndexOf(all, b)
  {
    assert all == early + all[|early|..];
    IndexStable(early, all[|early|..], a);
    IndexAfter(early, all[|early|..], b);
  }

  lemma {:induction false} IndexAfter(early: seq<string>, late: seq<string>, name: string)
    requires name !in early && name in early + late
    ensures IndexOf(early + late, name) >= |early|
  {
    if early == [] {
    } else {
      assert (early + late)[1..] == early[1..] + late;
      assert name in (early + late)[1..];
      IndexAfter(early[1..], late, name);
    }
  }
}
