/**
 The category note: the JSON text of a label dictionary, as a standard JSON encoder prints it
 with ASCII escapes (section 7 of RFC 8259), compact separators and sorted keys.
 */
module CategoryNote {
  import opened Decimals
  import opened SortedStrings

  // ----- strings -----

  function HexDigit(d: nat): (c: char)
    requires d < 16
    ensures c != '"' && c != '\\'
  {
    if d < 10 then Digit(d) else (('a' as int) + d - 10) as char
  }

  /** `\uXXXX` for one 16-bit unit. */
  function UnitEscape(unit: nat): (text: string)
    requires unit < 0x1_0000
    ensures |text| == 6 && text[0] == '\\' && text[1] == 'u'
  {
    ['\\', 'u', HexDigit(unit / 0x1000), HexDigit(unit / 0x100 % 0x10), HexDigit(unit / 0x10 % 0x10), HexDigit(unit % 0x10)]
  }

  predicate IsPlain(c: char) {
    ' ' <= c <= '~' && c != '"' && c != '\\'
  }

  /** The letter of a two-character escape, or `u` when there is none. */
  function ShortEscape(c: char): char {
    match c
    case '"' => '"'
    case '\\' => '\\'
    case '\n' => 'n'
    case '\r' => 'r'
    case '\t' => 't'
    case '\U{000C}' => 'f'
    case '\U{0008}' => 'b'
    case _ => 'u'
  }

  function HighSurrogate(point: nat): nat
    requires 0x1_0000 <= point < 0x11_0000
  {
    0xD800 + (point - 0x1_0000) / 0x400
  }

  function LowSurrogate(point: nat): nat
    requires 0x1_0000 <= point < 0x11_0000
  {
    0xDC00 + (point - 0x1_0000) % 0x400
  }

  function EscapeChar(c: char): (text: string)
    ensures |text| > 0 && text[0] != '"'
  {
    if IsPlain(c) then [c]
    else if ShortEscape(c) != 'u' then ['\\', ShortEscape(c)]
    else if (c as int) < 0x1_0000 then UnitEscape(c as int)
    else UnitEscape(HighSurrogate(c as int)) + UnitEscape(LowSurrogate(c as int))
  }

  function Escape(s: string): string {
    if s == "" then "" else EscapeChar(s[0]) + Escape(s[1..])
  }

  function Quote(s: string): string {
    "\"" + Escape(s) + "\""
  }

  lemma HexDigitInjective(a: nat, b: nat)
    requires a < 16 && b < 16 && HexDigit(a) == HexDigit(b)
    ensures a == b
  {
  }

  lemma UnitEscapeInjective(a: nat, b: nat)
    requires a < 0x1_0000 && b < 0x1_0000 && UnitEscape(a) == UnitEscape(b)
    ensures a == b
  {
    var s, t := UnitEscape(a), UnitEscape(b);
    assert s[2] == t[2] && s[3] == t[3] && s[4] == t[4] && s[5] == t[5];
    HexDigitInjective(a / 0x1000, b / 0x1000);
    HexDigitInjective(a / 0x100 % 0x10, b / 0x100 % 0x10);
    HexDigitInjective(a / 0x10 % 0x10, b / 0x10 % 0x10);
    HexDigitInjective(a % 0x10, b % 0x10);
    Nibbles(a);
    Nibbles(b);
  }

  lemma Nibbles(a: nat)
    requires a < 0x1_0000
    ensures a == a / 0x1000 * 0x1000 + a / 0x100 % 0x10 * 0x100 + a / 0x10 % 0x10 * 0x10 + a % 0x10
  {
    var b := a / 0x10;
    var c := b / 0x10;
    assert c == a / 0x100 && c / 0x10 == a / 0x1000;
    assert a == b * 0x10 + a % 0x10 && b == c * 0x10 + b % 0x10 && c == c / 0x10 * 0x10 + c % 0x10;
  }

  /** Which escape form a character takes. */
  function Form(c: char): nat {
    if IsPlain(c) then 0 else if ShortEscape(c) != 'u' then 1 else if (c as int) < 0x1_0000 then 2 else 3
  }

  lemma FirstUnit(c: char)
    requires Form(c) >= 2
    ensures |EscapeChar(c)| >= 6
    ensures EscapeChar(c)[..6] == UnitEscape(if Form(c) == 2 then c as int else HighSurrogate(c as int))
  {
  }

  /** The first characters of an escape tell its form. */
  lemma SameForm(c: char, d: char, x: string, y: string)
    requires EscapeChar(c) + x == EscapeChar(d) + y
    ensures Form(c) == Form(d)
  {
    var s, t := EscapeChar(c), EscapeChar(d);
    assert s[0] == (s + x)[0] == (t + y)[0] == t[0];
    if Form(c) > 0 && Form(d) > 0 {
      assert s[1] == (s + x)[1] == (t + y)[1] == t[1];
    }
    if Form(c) > 1 && Form(d) > 1 {
      FirstUnit(c);
      FirstUnit(d);
      assert s[..6] == (s + x)[..6] == (t + y)[..6] == t[..6];
      UnitEscapeInjective(if Form(c) == 2 then c as int else HighSurrogate(c as int),
                          if Form(d) == 2 then d as int else HighSurrogate(d as int));
    }
  }

  lemma SurrogatesInjective(p: nat, q: nat)
    requires 0x1_0000 <= p < 0x11_0000 && 0x1_0000 <= q < 0x11_0000
    requires HighSurrogate(p) == HighSurrogate(q) && LowSurrogate(p) == LowSurrogate(q)
    ensures p == q
  {
  }

  lemma EscapeCharInjective(c: char, d: char)
    requires Form(c) == Form(d) && EscapeChar(c) == EscapeChar(d)
    ensures c == d
  {
    var s, t := EscapeChar(c), EscapeChar(d);
    if Form(c) == 1 {
      assert s[1] == t[1];
    } else if Form(c) == 2 {
      UnitEscapeInjective(c as int, d as int);
    } else if Form(c) == 3 {
      assert s[..6] == UnitEscape(HighSurrogate(c as int)) && s[6..] == UnitEscape(LowSurrogate(c as int));
      assert t[..6] == UnitEscape(HighSurrogate(d as int)) && t[6..] == UnitEscape(LowSurrogate(d as int));
      UnitEscapeInjective(HighSurrogate(c as int), HighSurrogate(d as int));
      UnitEscapeInjective(LowSurrogate(c as int), LowSurrogate(d as int));
      SurrogatesInjective(c as int, d as int);
    }
  }

  lemma EscapeCharCancel(c: char, d: char, x: string, y: string)
    requires EscapeChar(c) + x == EscapeChar(d) + y
    ensures c == d && x == y
  {
    SameForm(c, d, x, y);
    var s, t := EscapeChar(c), EscapeChar(d);
    assert |s| == |t|;
    assert s == (s + x)[..|s|] == (t + y)[..|t|] == t;
    assert x == (s + x)[|s|..] == (t + y)[|t|..] == y;
    EscapeCharInjective(c, d);
  }

  lemma EscapeIsNotQuote(t: string, x: string, y: string)
    requires t != ""
    ensures "\"" + x != Escape(t) + "\"" + y
  {
    assert (Escape(t) + "\"" + y)[0] == EscapeChar(t[0])[0];
  }

  lemma PeelChar(s: string, x: string)
    requires s != ""
    ensures Escape(s) + "\"" + x == EscapeChar(s[0]) + (Escape(s[1..]) + "\"" + x)
  {
  }

  /** An escaped string up to its closing quote can be read back in one way only. */
  lemma {:induction false} EscapeCancel(s: string, t: string, x: string, y: string)
    requires Escape(s) + "\"" + x == Escape(t) + "\"" + y
    ensures s == t && x == y
  {
    if s == "" && t == "" {
      assert x == (Escape(s) + "\"" + x)[1..] && y == (Escape(t) + "\"" + y)[1..];
    } else if s == "" {
      EscapeIsNotQuote(t, x, y);
    } else if t == "" {
      EscapeIsNotQuote(s, y, x);
    } else {
      PeelChar(s, x);
      PeelChar(t, y);
      EscapeCharCancel(s[0], t[0], Escape(s[1..]) + "\"" + x, Escape(t[1..]) + "\"" + y);
      EscapeCancel(s[1..], t[1..], x, y);
      assert s == [s[0]] + s[1..] && t == [t[0]] + t[1..];
    }
  }

  lemma PrefixCancel(head: string, x: string, y: string)
    requires head + x == head + y
    ensures x == y
  {
    assert x == (head + x)[|head|..] && y == (head + y)[|head|..];
  }

  lemma QuoteText(s: string, x: string)
    ensures Quote(s) + x == "\"" + (Escape(s) + "\"" + x)
  {
  }

  lemma QuoteCancel(s: string, t: string, x: string, y: string)
    requires Quote(s) + x == Quote(t) + y
    ensures s == t && x == y
  {
    QuoteText(s, x);
    QuoteText(t, y);
    PrefixCancel("\"", Escape(s) + "\"" + x, Escape(t) + "\"" + y);
    EscapeCancel(s, t, x, y);
  }

  // ----- values -----

  datatype Member = Member(name: string, value: Json)

  /** The JSON values a note is made of. */
  datatype Json = Number(n: int) | Object(members: seq<Member>)

  function Print(v: Json): string
    decreases v, 0
  {
    match v
    case Number(n) => IntegerText(n)
    case Object(members) => "{" + PrintMembers(members)
  }

  /** The members of an object, separated by commas, and its closing brace. */
  function PrintMembers(members: seq<Member>): string
    decreases members, 0
  {
    if members == [] then
      "}"
    else
      Quote(members[0].name) + (":" + (Print(members[0].value) + PrintRest(members[1..])))
  }

  /** What follows a member: the next one, or the end of the object. */
  function PrintRest(members: seq<Member>): (text: string)
    ensures EndsNumber(text)
    decreases members, 1
  {
    if members == [] then "}" else "," + PrintMembers(members)
  }

  // ----- printing is injective -----

  lemma Assoc(a: string, b: string, c: string)
    ensures (a + b) + c == a + (b + c)
  {
  }

  lemma PrintStart(v: Json, x: string)
    ensures |Print(v)| > 0 && (Print(v) + x)[0] == Print(v)[0]
    ensures Print(v)[0] == '{' <==> v.Object?
  {
  }

  lemma MembersText(members: seq<Member>, x: string)
    requires members != []
    ensures PrintMembers(members) + x
         == Quote(members[0].name) + (":" + (Print(members[0].value) + (PrintRest(members[1..]) + x)))
  {
    var rest := PrintRest(members[1..]);
    Assoc(Quote(members[0].name), ":" + (Print(members[0].value) + rest), x);
    Assoc(":", Print(members[0].value) + rest, x);
    Assoc(Print(members[0].value), rest, x);
  }

  lemma MembersStart(members: seq<Member>, x: string)
    ensures |PrintMembers(members)| > 0
    ensures (PrintMembers(members) + x)[0] == if members == [] then '}' else '"'
  {
  }

  lemma RestStart(members: seq<Member>, x: string)
    ensures (PrintRest(members) + x)[0] == if members == [] then '}' else ','
    ensures EndsNumber(PrintRest(members) + x)
  {
  }

  /** A printed value followed by something that is not a digit can be read back in one way only. */
  lemma {:induction false} PrintCancel(v: Json, w: Json, x: string, y: string)
    requires EndsNumber(x) && EndsNumber(y)
    requires Print(v) + x == Print(w) + y
    ensures v == w && x == y
    decreases v, 0
  {
    PrintStart(v, x);
    PrintStart(w, y);
    if v.Number? && w.Number? {
      IntegerCancel(v.n, w.n, x, y);
    } else if v.Object? && w.Object? {
      Assoc("{", PrintMembers(v.members), x);
      Assoc("{", PrintMembers(w.members), y);
      PrefixCancel("{", PrintMembers(v.members) + x, PrintMembers(w.members) + y);
      MembersCancel(v.members, w.members, x, y);
    }
  }

  lemma {:induction false} MembersCancel(a: seq<Member>, b: seq<Member>, x: string, y: string)
    requires PrintMembers(a) + x == PrintMembers(b) + y
    ensures a == b && x == y
    decreases a, 0
  {
    MembersStart(a, x);
    MembersStart(b, y);
    if a == [] && b == [] {
      PrefixCancel("}", x, y);
    } else if a != [] && b != [] {
      MembersText(a, x);
      MembersText(b, y);
      var u, v := PrintRest(a[1..]) + x, PrintRest(b[1..]) + y;
      QuoteCancel(a[0].name, b[0].name, ":" + (Print(a[0].value) + u), ":" + (Print(b[0].value) + v));
      PrefixCancel(":", Print(a[0].value) + u, Print(b[0].value) + v);
      RestStart(a[1..], x);
      RestStart(b[1..], y);
      PrintCancel(a[0].value, b[0].value, u, v);
      RestCancel(a[1..], b[1..], x, y);
      assert a == [a[0]] + a[1..] && b == [b[0]] + b[1..];
    }
  }

  lemma {:induction false} RestCancel(a: seq<Member>, b: seq<Member>, x: string, y: string)
    requires PrintRest(a) + x == PrintRest(b) + y
    ensures a == b && x == y
    decreases a, 1
  {
    RestStart(a, x);
    RestStart(b, y);
    if a == [] && b == [] {
      PrefixCancel("}", x, y);
    } else if a != [] && b != [] {
      Assoc(",", PrintMembers(a), x);
      Assoc(",", PrintMembers(b), y);
      PrefixCancel(",", PrintMembers(a) + x, PrintMembers(b) + y);
      MembersCancel(a, b, x, y);
    }
  }

  // ----- the note -----

  predicate HasCodes(labels: seq<string>, codes: map<string, nat>) {
    forall i :: 0 <= i < |labels| ==> labels[i] in codes
  }

  function MembersOf(labels: seq<string>, codes: map<string, nat>): (members: seq<Member>)
    requires HasCodes(labels, codes)
  {
    if labels == [] then
      []
    else
      [Member(labels[0], Number(codes[labels[0]]))] + MembersOf(labels[1..], codes)
  }

  lemma KeysHaveCodes(codes: map<string, nat>)
    ensures HasCodes(SortedKeys(codes.Keys), codes)
  {
    var labels := SortedKeys(codes.Keys);
    assert forall i :: 0 <= i < |labels| ==> labels[i] in KeySet(labels);
  }

  /** The dictionary as a JSON object with sorted keys. */
  function CodesObject(codes: map<string, nat>): Json {
    KeysHaveCodes(codes);
    Object(MembersOf(SortedKeys(codes.Keys), codes))
  }

  const MISSING_NUMBER := -1

  function NoteObject(codes: map<string, nat>): Json {
    Object([Member("codes", CodesObject(codes)), Member("missing", Number(MISSING_NUMBER))])
  }

  /** The `tetration_categories` attribute of a dictionary. */
  function Note(codes: map<string, nat>): string {
    Print(NoteObject(codes))
  }

  lemma {:induction false} MembersInjective(
    a: seq<string>, b: seq<string>, c: map<string, nat>, d: map<string, nat>)
    requires HasCodes(a, c) && HasCodes(b, d) && MembersOf(a, c) == MembersOf(b, d)
    ensures a == b && forall i :: 0 <= i < |a| ==> c[a[i]] == d[a[i]]
  {
    if a == [] || b == [] {
    } else {
      var u, v := MembersOf(a, c), MembersOf(b, d);
      assert u[0] == Member(a[0], Number(c[a[0]])) && v[0] == Member(b[0], Number(d[b[0]]));
      assert u[1..] == MembersOf(a[1..], c) && v[1..] == MembersOf(b[1..], d);
      MembersInjective(a[1..], b[1..], c, d);
      assert a == [a[0]] + a[1..] && b == [b[0]] + b[1..];
    }
  }

  /** Two different dictionaries never print the same note. */
  lemma NoteInjective(c: map<string, nat>, d: map<string, nat>)
    requires Note(c) == Note(d)
    ensures c == d
  {
    PrintCancel(NoteObject(c), NoteObject(d), ";", ";");
    assert NoteObject(c).members[0] == NoteObject(d).members[0];
    CodesInjective(c, d);
  }

  lemma CodesInjective(c: map<string, nat>, d: map<string, nat>)
    requires CodesObject(c) == CodesObject(d)
    ensures c == d
  {
    KeysHaveCodes(c);
    KeysHaveCodes(d);
    var a, b := SortedKeys(c.Keys), SortedKeys(d.Keys);
    MembersInjective(a, b, c, d);
    forall k | k in c
      ensures c[k] == d[k]
    {
      assert k in KeySet(a);
    }
  }
}
