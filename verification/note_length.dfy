/** The length of the category note, which the import caps. */
module NoteLength {
  import opened Decimals
  import opened CategoryNote
  import opened SortedStrings

  predicate Distinct(labels: seq<string>) {
    forall i, j :: 0 <= i < j < |labels| ==> labels[i] != labels[j]
  }

  function IndexOf(labels: seq<string>, name: string): (i: nat)
    requires name in labels
    ensures i < |labels| && labels[i] == name
  {
    if labels[0] == name then 0 else 1 + IndexOf(labels[1..], name)
  }

  /** Codes in listing order: the label at position `i` gets code `i`. */
  function CodesOf(labels: seq<string>): map<string, nat> {
    if labels == [] then
      map[]
    else
      CodesOf(labels[..|labels| - 1])[labels[|labels| - 1] := |labels| - 1]
  }

  lemma {:induction false} CodesOfKeys(labels: seq<string>)
    ensures CodesOf(labels).Keys == KeySet(labels)
  {
    if labels != [] {
      CodesOfKeys(labels[..|labels| - 1]);
      assert labels == labels[..|labels| - 1] + [labels[|labels| - 1]];
    }
  }

  lemma {:induction false} CodeAt(labels: seq<string>, i: nat)
    requires Distinct(labels) && i < |labels|
    ensures labels[i] in CodesOf(labels) && CodesOf(labels)[labels[i]] == i
  {
    if i < |labels| - 1 {
      CodeAt(labels[..|labels| - 1], i);
    }
  }

  lemma CodeIsIndex(labels: seq<string>, name: string)
    requires Distinct(labels) && name in labels
    ensures name in CodesOf(labels) && CodesOf(labels)[name] == IndexOf(labels, name)
  {
    CodeAt(labels, IndexOf(labels, name));
  }

  // ----- the note is ASCII -----

  ghost predicate Ascii(text: string) {
    forall i :: 0 <= i < |text| ==> (text[i] as int) < 0x80
  }

  lemma EscapeCharAscii(c: char)
    ensures Ascii(EscapeChar(c))
  {
  }

  lemma {:induction false} EscapeAscii(s: string)
    ensures Ascii(Escape(s))
  {
    if s != "" {
      EscapeCharAscii(s[0]);
      EscapeAscii(s[1..]);
    }
  }

  lemma ConcatAscii(a: string, b: string)
    requires Ascii(a) && Ascii(b)
    ensures Ascii(a + b)
  {
  }

  lemma QuoteAscii(name: string)
    ensures Ascii(Quote(name))
  {
    EscapeAscii(name);
    ConcatAscii("\"" + Escape(name), "\"");
  }

  lemma IntegerAscii(n: int)
    ensures Ascii(IntegerText(n))
  {
    var text := Decimal(if n < 0 then -n else n);
    assert forall i :: 0 <= i < |text| ==> IsDigit(text[i]);
  }

  lemma {:induction false} PrintAscii(v: Json)
    ensures Ascii(Print(v))
    decreases v, 0
  {
    match v
    case Number(n) => IntegerAscii(n);
    case Object(members) =>
      MembersAscii(members);
      ConcatAscii("{", PrintMembers(members));
  }

  lemma {:induction false} MembersAscii(members: seq<Member>)
    ensures Ascii(PrintMembers(members))
    decreases members, 0
  {
    if members != [] {
      var name, value, rest := Quote(members[0].name), Print(members[0].value), PrintRest(members[1..]);
      QuoteAscii(members[0].name);
      PrintAscii(members[0].value);
      if members[1..] != [] {
        MembersAscii(members[1..]);
        ConcatAscii(",", PrintMembers(members[1..]));
      }
      ConcatAscii(value, rest);
      ConcatAscii(":", value + rest);
      ConcatAscii(name, ":" + (value + rest));
    }
  }

  /** Every character of the note is ASCII, so its UTF-8 length is its length. */
  lemma NoteIsAscii(codes: map<string, nat>)
    ensures Ascii(Note(codes))
  {
    PrintAscii(NoteObject(codes));
  }

  // ----- length as a sum -----

  function SumOf(labels: seq<string>, f: string -> nat): nat {
    if labels == [] then 0 else f(labels[0]) + SumOf(labels[1..], f)
  }

  lemma {:induction false} SumSplits(labels: seq<string>, i: nat, f: string -> nat)
    requires i < |labels|
    ensures SumOf(labels, f) == f(labels[i]) + SumOf(labels[..i] + labels[i + 1..], f)
  {
    var rest := labels[..i] + labels[i + 1..];
    if i == 0 {
      assert rest == labels[1..];
    } else {
      SumSplits(labels[1..], i - 1, f);
      assert rest[1..] == labels[1..][..i - 1] + labels[1..][i..];
    }
  }

  lemma {:induction false} SumAppends(labels: seq<string>, name: string, f: string -> nat)
    ensures SumOf(labels + [name], f) == SumOf(labels, f) + f(name)
  {
    SumSplits(labels + [name], |labels|, f);
    assert (labels + [name])[..|labels|] + (labels + [name])[|labels| + 1..] == labels;
  }

  lemma RemoveOne(a: seq<string>, b: seq<string>) returns (i: nat)
    requires a != [] && multiset(a) == multiset(b)
    ensures i < |b| && b[i] == a[0]
    ensures multiset(a[1..]) == multiset(b[..i] + b[i + 1..])
  {
    assert a[0] in multiset(b);
    i :| 0 <= i < |b| && b[i] == a[0];
    var rest := b[..i] + b[i + 1..];
    assert b == b[..i] + [b[i]] + b[i + 1..];
    assert multiset(b) == multiset(rest) + multiset{b[i]};
    assert a == [a[0]] + a[1..];
    assert multiset(a) == multiset(a[1..]) + multiset{a[0]};
    assert multiset(a[1..]) == multiset(a) - multiset{a[0]};
    assert multiset(rest) == multiset(b) - multiset{b[i]};
  }

  /** A sum depends on the summands, not on their order. */
  lemma {:induction false} SumPermutes(a: seq<string>, b: seq<string>, f: string -> nat)
    requires multiset(a) == multiset(b)
    ensures SumOf(a, f) == SumOf(b, f)
  {
    assert |a| == |multiset(a)| == |multiset(b)| == |b|;
    if a != [] {
      var i := RemoveOne(a, b);
      SumPermutes(a[1..], b[..i] + b[i + 1..], f);
      SumSplits(b, i, f);
    }
  }

  function LabelWeight(name: string): nat {
    |Quote(name)| + 1
  }

  function CodeWeight(codes: map<string, nat>): string -> nat {
    l => if l in codes then |Decimal(codes[l])| else 0
  }

  function Commas(n: nat): nat {
    if n == 0 then 0 else n - 1
  }

  lemma {:induction false} MembersLength(labels: seq<string>, codes: map<string, nat>)
    requires HasCodes(labels, codes)
    ensures |PrintMembers(MembersOf(labels, codes))|
         == SumOf(labels, LabelWeight) + SumOf(labels, CodeWeight(codes)) + Commas(|labels|) + 1
  {
    if labels != [] {
      MembersLength(labels[1..], codes);
      assert labels[0] in codes;
      assert MembersOf(labels, codes)[1..] == MembersOf(labels[1..], codes);
    }
  }

  /** Length of the note around the dictionary: `{"codes":` before it, `,"missing":-1}` after it. */
  const FRAME := 23

  lemma FixedText()
    ensures |Quote("codes")| == 7 && |Quote("missing")| == 9 && |IntegerText(MISSING_NUMBER)| == 2
  {
  }

  lemma FramedLength(codes: map<string, nat>)
    ensures |Note(codes)| == FRAME + |Print(CodesObject(codes))|
  {
    var codesMember, missing := Member("codes", CodesObject(codes)), Member("missing", Number(MISSING_NUMBER));
    FixedText();
    assert NoteObject(codes).members == [codesMember] + [missing];
    assert [missing] + [] == [missing];
    MemberLength(codesMember, [missing]);
    MemberLength(missing, []);
  }

  lemma MemberLength(m: Member, rest: seq<Member>)
    ensures |PrintMembers([m] + rest)| == |Quote(m.name)| + 1 + |Print(m.value)| + |PrintRest(rest)|
  {
    assert ([m] + rest)[1..] == rest;
  }

  // ----- listings of one set -----

  lemma {:induction false} DistinctCount(labels: seq<string>, name: string)
    requires Distinct(labels)
    ensures multiset(labels)[name] == if name in labels then 1 else 0
  {
    if labels != [] {
      assert labels == [labels[0]] + labels[1..];
      DistinctCount(labels[1..], name);
    }
  }

  lemma SameListing(a: seq<string>, b: seq<string>)
    requires Distinct(a) && Distinct(b) && KeySet(a) == KeySet(b)
    ensures multiset(a) == multiset(b) && |a| == |b|
  {
    forall name
      ensures multiset(a)[name] == multiset(b)[name]
    {
      DistinctCount(a, name);
      DistinctCount(b, name);
      assert name in a <==> name in KeySet(a);
      assert name in b <==> name in KeySet(b);
    }
    assert multiset(a) == multiset(b);
    assert |a| == |multiset(a)| == |multiset(b)| == |b|;
  }

  lemma SortedDistinct(labels: seq<string>)
    requires Sorted(labels)
    ensures Distinct(labels)
  {
    forall i, j | 0 <= i < j < |labels|
      ensures labels[i] != labels[j]
    {
      LessTotal(labels[i], labels[j]);
    }
  }

  // ----- the two facts the online cap relies on -----

  /** Digits of the codes 0 .. n-1. */
  function DigitsBelow(n: nat): nat {
    if n == 0 then 0 else DigitsBelow(n - 1) + |Decimal(n - 1)|
  }

  /** Length of the note of a listing, from the listing alone. */
  function ListingLength(labels: seq<string>): nat {
    FRAME + 2 + SumOf(labels, LabelWeight) + DigitsBelow(|labels|) + Commas(|labels|)
  }

  lemma {:induction false} CodeDigits(labels: seq<string>, n: nat)
    requires Distinct(labels) && n <= |labels|
    ensures SumOf(labels[..n], CodeWeight(CodesOf(labels))) == DigitsBelow(n)
  {
    if n > 0 {
      CodeDigits(labels, n - 1);
      assert labels[..n] == labels[..n - 1] + [labels[n - 1]];
      SumAppends(labels[..n - 1], labels[n - 1], CodeWeight(CodesOf(labels)));
      CodeAt(labels, n - 1);
    }
  }

  lemma NoteLengthSums(codes: map<string, nat>, labels: seq<string>)
    requires Distinct(labels) && KeySet(labels) == codes.Keys
    ensures |Note(codes)| == FRAME + 2 + SumOf(labels, LabelWeight) + SumOf(labels, CodeWeight(codes))
                             + Commas(|labels|)
  {
    KeysHaveCodes(codes);
    var sorted := SortedKeys(codes.Keys);
    FramedLength(codes);
    MembersLength(sorted, codes);
    SortedDistinct(sorted);
    SameListing(sorted, labels);
    SumPermutes(sorted, labels, LabelWeight);
    SumPermutes(sorted, labels, CodeWeight(codes));
  }

  lemma NoteOfListing(labels: seq<string>)
    requires Distinct(labels)
    ensures |Note(CodesOf(labels))| == ListingLength(labels)
  {
    CodesOfKeys(labels);
    NoteLengthSums(CodesOf(labels), labels);
    CodeDigits(labels, |labels|);
    assert labels[..|labels|] == labels;
  }

  lemma LongerListing(labels: seq<string>, name: string)
    ensures ListingLength(labels) < ListingLength(labels + [name])
  {
    SumAppends(labels, name, LabelWeight);
    assert |labels + [name]| == |labels| + 1;
  }

  /** A new label strictly lengthens the note. */
  lemma NewLabelLengthens(labels: seq<string>, name: string)
    requires Distinct(labels) && name !in labels
    ensures |Note(CodesOf(labels))| < |Note(CodesOf(labels + [name]))|
  {
    NoteOfListing(labels);
    NoteOfListing(labels + [name]);
    LongerListing(labels, name);
  }

  /** Two listings of the same labels have notes of the same length. */
  lemma LengthIgnoresOrder(a: seq<string>, b: seq<string>)
    requires Distinct(a) && Distinct(b) && KeySet(a) == KeySet(b)
    ensures |Note(CodesOf(a))| == |Note(CodesOf(b))|
  {
    NoteOfListing(a);
    NoteOfListing(b);
    SameListing(a, b);
    SumPermutes(a, b, LabelWeight);
  }

  // ----- any numbering 0 .. n-1 of a label set is a listing of it -----

  /** The codes are exactly 0 .. n-1, one per label. */
  ghost predicate IsNumbering(codes: map<string, nat>) {
    && (forall name :: name in codes ==> codes[name] < |codes|)
    && (forall code :: 0 <= code < |codes| ==> code in codes.Values)
  }

  ghost function LabelOf(codes: map<string, nat>, code: nat): (name: string)
    requires code in codes.Values
    ensures name in codes && codes[name] == code
  {
    var name :| name in codes && codes[name] == code;
    name
  }

  ghost function Listing(codes: map<string, nat>): (labels: seq<string>)
    requires IsNumbering(codes)
    ensures |labels| == |codes|
  {
    seq(|codes|, i requires 0 <= i < |codes| => LabelOf(codes, i))
  }

  lemma {:induction false} DistinctSize(labels: seq<string>)
    requires Distinct(labels)
    ensures |KeySet(labels)| == |labels|
  {
    if labels != [] {
      DistinctSize(labels[1..]);
      assert KeySet(labels) == {labels[0]} + KeySet(labels[1..]) by {
        assert labels == [labels[0]] + labels[1..];
      }
    }
  }

  lemma {:induction false} SubsetSameSize(a: set<string>, b: set<string>)
    requires a <= b && |a| == |b|
    ensures a == b
  {
    if b != {} {
      if a != b {
        var x :| x in b && x !in a;
        SubsetSize(a, b - {x});
      }
    }
  }

  lemma {:induction false} SubsetSize(a: set<string>, b: set<string>)
    requires a <= b
    ensures |a| <= |b|
  {
    if a != {} {
      var x :| x in a;
      SubsetSize(a - {x}, b - {x});
    }
  }

  lemma ListingAt(codes: map<string, nat>, i: nat)
    requires IsNumbering(codes) && i < |codes|
    ensures Listing(codes)[i] in codes && codes[Listing(codes)[i]] == i
  {
  }

  lemma ListingKeys(codes: map<string, nat>)
    requires IsNumbering(codes)
    ensures Distinct(Listing(codes)) && KeySet(Listing(codes)) == codes.Keys
  {
    var labels := Listing(codes);
    forall i | 0 <= i < |labels|
      ensures labels[i] in codes && codes[labels[i]] == i
    {
      ListingAt(codes, i);
    }
    DistinctSize(labels);
    SubsetSameSize(KeySet(labels), codes.Keys);
  }

  lemma NumberingIsListing(codes: map<string, nat>)
    requires IsNumbering(codes)
    ensures Distinct(Listing(codes)) && KeySet(Listing(codes)) == codes.Keys
    ensures CodesOf(Listing(codes)) == codes
  {
    var labels := Listing(codes);
    ListingKeys(codes);
    CodesOfKeys(labels);
    forall name | name in codes
      ensures CodesOf(labels)[name] == codes[name]
    {
      assert name in KeySet(labels);
      CodeIsIndex(labels, name);
      ListingAt(codes, IndexOf(labels, name));
    }
  }

  /** The length of the note is the same for every assignment of the codes 0 .. n-1 to the labels. */
  lemma LengthIgnoresNumbering(c: map<string, nat>, d: map<string, nat>)
    requires IsNumbering(c) && IsNumbering(d) && c.Keys == d.Keys
    ensures |Note(c)| == |Note(d)|
  {
    NumberingIsListing(c);
    NumberingIsListing(d);
    LengthIgnoresOrder(Listing(c), Listing(d));
  }
}
