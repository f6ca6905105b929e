/**
 A reader of JSON texts made of objects and integers, after RFC 8259 (strings: section 7,
 objects: section 4, numbers: section 6), and what it makes of the category note.
 It takes no whitespace: the note is printed without any.
 */
module NoteReader {
  import opened Wrappers
  import opened Decimals
  import opened SortedStrings
  import opened CategoryNote

  // ----- strings -----

  function HexValue(c: char): Option<nat> {
    if '0' <= c <= '9' then Some(c as int - '0' as int)
    else if 'a' <= c <= 'f' then Some(c as int - 'a' as int + 10)
    else if 'A' <= c <= 'F' then Some(c as int - 'A' as int + 10)
    else None
  }

  /** Four hex digits after `\u`, most significant first. */
  function ReadUnit(s: string): (r: Option<(nat, string)>)
    ensures r.Some? ==> |r.value.1| + 6 == |s|
  {
    if |s| < 6 || s[0] != '\\' || s[1] != 'u' then None
    else match (HexValue(s[2]), HexValue(s[3]), HexValue(s[4]), HexValue(s[5]))
      case (Some(a), Some(b), Some(c), Some(d)) => Some((0x1000 * a + 0x100 * b + 0x10 * c + d, s[6..]))
      case _ => None
  }

  /** What the letter after a backslash stands for. */
  function ShortMeaning(c: char): Option<char> {
    match c
    case '"' => Some('"')
    case '\\' => Some('\\')
    case '/' => Some('/')
    case 'b' => Some('\U{0008}')
    case 'f' => Some('\U{000C}')
    case 'n' => Some('\U{000A}')
    case 'r' => Some('\U{000D}')
    case 't' => Some('\U{0009}')
    case _ => None
  }

  /** A character outside the basic plane is written as two units. */
  function ReadEscapedUnit(s: string): (r: Option<(char, string)>)
    ensures r.Some? ==> |r.value.1| < |s|
  {
    match ReadUnit(s)
    case None => None
    case Some((unit, rest)) =>
      if unit < 0xD800 || 0xE000 <= unit < 0x1_0000 then Some((unit as char, rest))
      else if unit >= 0xDC00 then None
      else match ReadUnit(rest)
        case None => None
        case Some((low, after)) =>
          if 0xDC00 <= low < 0xE000 then
            Some(((0x1_0000 + 0x400 * (unit - 0xD800) + (low - 0xDC00)) as char, after))
          else None
  }

  function ReadChar(s: string): (r: Option<(char, string)>)
    ensures r.Some? ==> |r.value.1| < |s|
  {
    if s == "" || s[0] < ' ' then None
    else if s[0] != '\\' then Some((s[0], s[1..]))
    else if |s| > 1 && s[1] == 'u' then ReadEscapedUnit(s)
    else if |s| > 1 && ShortMeaning(s[1]).Some? then Some((ShortMeaning(s[1]).value, s[2..]))
    else None
  }

  /** The characters up to the closing quote. */
  function ReadChars(s: string): (r: Option<(string, string)>)
    ensures r.Some? ==> |r.value.1| < |s|
    decreases |s|
  {
    if s == "" then None
    else if s[0] == '"' then Some(("", s[1..]))
    else match ReadChar(s)
      case None => None
      case Some((c, rest)) =>
        match ReadChars(rest)
        case None => None
        case Some((name, after)) => Some(([c] + name, after))
  }

  // ----- numbers -----

  /** The value of the digits at the start, most significant first, and what follows them. */
  function ReadDigits(s: string, value: nat): (r: (nat, string))
    ensures |r.1| <= |s|
  {
    if s != "" && '0' <= s[0] <= '9' then ReadDigits(s[1..], 10 * value + (s[0] as int - '0' as int))
    else (value, s)
  }

  /** No leading zeros. */
  function ReadNat(s: string): (r: Option<(nat, string)>)
    ensures r.Some? ==> |r.value.1| < |s|
  {
    if s == "" || !('0' <= s[0] <= '9') then None
    else if s[0] == '0' then Some((0, s[1..]))
    else Some(ReadDigits(s[1..], s[0] as int - '0' as int))
  }

  function ReadNumber(s: string): (r: Option<(int, string)>)
    ensures r.Some? ==> |r.value.1| < |s|
  {
    if s != "" && s[0] == '-' then
      match ReadNat(s[1..])
      case None => None
      case Some((n, rest)) =>
        var negative: int := 0 - n;
        Some((negative, rest))
    else
      match ReadNat(s)
      case None => None
      case Some((n, rest)) => Some((n as int, rest))
  }

  // ----- values -----

  function ReadValue(s: string): (r: Option<(Json, string)>)
    ensures r.Some? ==> |r.value.1| < |s|
    decreases |s|, 2
  {
    if s != "" && s[0] == '{' then
      match ReadObject(s[1..])
      case None => None
      case Some((members, rest)) => Some((Object(members), rest))
    else
      match ReadNumber(s)
      case None => None
      case Some((n, rest)) => Some((Number(n), rest))
  }

  /** What follows the opening brace. */
  function ReadObject(s: string): (r: Option<(seq<Member>, string)>)
    ensures r.Some? ==> |r.value.1| < |s|
    decreases |s|, 4
  {
    if s != "" && s[0] == '}' then Some(([], s[1..])) else ReadMembers(s)
  }

  /** One member at least, and the closing brace. */
  function ReadMembers(s: string): (r: Option<(seq<Member>, string)>)
    ensures r.Some? ==> |r.value.1| < |s|
    decreases |s|, 3
  {
    match ReadMember(s)
    case None => None
    case Some((member, rest)) =>
      if rest != "" && rest[0] == '}' then Some(([member], rest[1..]))
      else if rest == "" || rest[0] != ',' then None
      else match ReadMembers(rest[1..])
        case None => None
        case Some((members, after)) => Some(([member] + members, after))
  }

  function ReadMember(s: string): (r: Option<(Member, string)>)
    ensures r.Some? ==> |r.value.1| < |s|
    decreases |s|, 1
  {
    if s == "" || s[0] != '"' then None
    else match ReadChars(s[1..])
      case None => None
      case Some((name, rest)) =>
        if rest == "" || rest[0] != ':' then None
        else match ReadValue(rest[1..])
          case None => None
          case Some((value, after)) => Some((Member(name, value), after))
  }

  // ----- the note -----

  /** The member of a name; the last one, if the name is repeated. */
  function Lookup(members: seq<Member>, name: string): Option<Json> {
    if members == [] then None
    else if members[|members| - 1].name == name then Some(members[|members| - 1].value)
    else Lookup(members[..|members| - 1], name)
  }

  /** Members of integer values as a dictionary. */
  function CodesIn(members: seq<Member>): Option<map<string, int>> {
    if members == [] then Some(map[])
    else
      var last := members[|members| - 1];
      match (CodesIn(members[..|members| - 1]), last.value)
      case (Some(codes), Number(n)) => Some(codes[last.name := n])
      case _ => None
  }

  /** The dictionary and the missing code of a note. */
  function ReadNote(note: string): Option<(map<string, int>, int)> {
    match ReadValue(note)
    case None => None
    case Some((value, rest)) =>
      if rest != "" || !value.Object? then None
      else match (Lookup(value.members, "codes"), Lookup(value.members, "missing"))
        case (Some(codes), Some(missing)) =>
          if codes.Object? && missing.Number? && CodesIn(codes.members).Some? then
            Some((CodesIn(codes.members).value, missing.n))
          else
            None
        case _ => None
  }

  // ----- a printed string reads back -----

  lemma HexReads(d: nat)
    requires d < 16
    ensures HexValue(HexDigit(d)) == Some(d)
  {
  }

  lemma UnitReads(unit: nat, x: string)
    requires unit < 0x1_0000
    ensures ReadUnit(UnitEscape(unit) + x) == Some((unit, x))
  {
    var s := UnitEscape(unit) + x;
    HexReads(unit / 0x1000);
    HexReads(unit / 0x100 % 0x10);
    HexReads(unit / 0x10 % 0x10);
    HexReads(unit % 0x10);
    Nibbles(unit);
    assert s[6..] == x;
  }

  lemma SurrogatesCombine(point: nat)
    requires 0x1_0000 <= point < 0x11_0000
    ensures 0xD800 <= HighSurrogate(point) < 0xDC00 <= LowSurrogate(point) < 0xE000
    ensures 0x1_0000 + 0x400 * (HighSurrogate(point) - 0xD800) + (LowSurrogate(point) - 0xDC00) == point
  {
  }

  lemma PairReads(c: char, x: string)
    requires (c as int) >= 0x1_0000
    ensures ReadEscapedUnit(UnitEscape(HighSurrogate(c as int)) + UnitEscape(LowSurrogate(c as int)) + x) == Some((c, x))
  {
    var high, low := HighSurrogate(c as int), LowSurrogate(c as int);
    SurrogatesCombine(c as int);
    UnitReads(high, UnitEscape(low) + x);
    UnitReads(low, x);
    assert UnitEscape(high) + UnitEscape(low) + x == UnitEscape(high) + (UnitEscape(low) + x);
  }

  lemma ShortReads(c: char)
    requires ShortEscape(c) != 'u'
    ensures ShortMeaning(ShortEscape(c)) == Some(c)
  {
  }

  lemma CharReads(c: char, x: string)
    ensures ReadChar(EscapeChar(c) + x) == Some((c, x))
  {
    var s := EscapeChar(c) + x;
    if IsPlain(c) {
      assert s[1..] == x;
    } else if ShortEscape(c) != 'u' {
      ShortReads(c);
      assert s[2..] == x;
    } else if (c as int) < 0x1_0000 {
      UnitReads(c as int, x);
    } else {
      PairReads(c, x);
    }
  }

  lemma {:induction false} CharsRead(name: string, x: string)
    ensures ReadChars(Escape(name) + "\"" + x) == Some((name, x))
  {
    var s := Escape(name) + "\"" + x;
    if name == "" {
      assert s == "\"" + x && s[1..] == x;
    } else {
      PeelChar(name, x);
      var rest := Escape(name[1..]) + "\"" + x;
      CharReads(name[0], rest);
      CharsRead(name[1..], x);
      assert s[0] == EscapeChar(name[0])[0];
      assert [name[0]] + name[1..] == name;
    }
  }

  // ----- a printed number reads back -----

  /** Digits read one after the other. */
  lemma {:induction false} DigitsRead(digits: string, y: string, value: nat)
    requires AllDigits(digits)
    ensures ReadDigits(digits + y, value) == ReadDigits(y, ReadDigits(digits, value).0)
  {
    if digits == "" {
      assert digits + y == y;
    } else {
      assert (digits + y)[1..] == digits[1..] + y;
      DigitsRead(digits[1..], y, 10 * value + (digits[0] as int - '0' as int));
    }
  }

  /** The text of a number has its digits most significant first. */
  lemma {:induction false} DecimalReads(n: nat)
    ensures ReadDigits(Decimal(n), 0).0 == n
    ensures n > 0 ==> Decimal(n)[0] != '0'
    ensures n == 0 ==> Decimal(n) == "0"
  {
    if n < 10 {
      assert Decimal(n)[1..] == "";
    } else {
      DecimalReads(n / 10);
      DigitsRead(Decimal(n / 10), [Digit(n % 10)], 0);
      assert [Digit(n % 10)][1..] == "";
    }
  }

  /** The value of a digit string is what reading it digit by digit gives. */
  lemma {:induction false} DigitsValueReads(digits: string)
    requires AllDigits(digits)
    ensures DigitsValue(digits) == ReadDigits(digits, 0).0
  {
    if digits != "" {
      var n := |digits| - 1;
      DigitsValueReads(digits[..n]);
      DigitsRead(digits[..n], digits[n..], 0);
      assert digits == digits[..n] + digits[n..];
      assert digits[n..] == [digits[n]] && digits[n..][1..] == "";
    }
  }

  lemma NatReads(n: nat, x: string)
    requires x == "" || !IsDigit(x[0])
    ensures ReadNat(Decimal(n) + x) == Some((n, x))
  {
    var s := Decimal(n) + x;
    DecimalReads(n);
    if n == 0 {
      assert s[1..] == x;
    } else {
      DigitsRead(Decimal(n), x, 0);
    }
  }

  lemma NumberReads(n: int, x: string)
    requires x == "" || !IsDigit(x[0])
    ensures ReadNumber(IntegerText(n) + x) == Some((n, x))
  {
    if n < 0 {
      assert IntegerText(n) + x == "-" + (Decimal(-n) + x);
      assert ("-" + (Decimal(-n) + x))[1..] == Decimal(-n) + x;
      NatReads(-n, x);
    } else {
      NatReads(n, x);
    }
  }

  // ----- a printed value reads back -----

  /** Whatever is printed is read, up to what follows. */
  lemma {:induction false} ValueReads(v: Json, x: string)
    requires x == "" || !IsDigit(x[0])
    ensures ReadValue(Print(v) + x) == Some((v, x))
    decreases v, 0
  {
    match v
    case Number(n) =>
      NumberStart(n, x);
      NumberReads(n, x);
    case Object(members) =>
      assert Print(v) + x == "{" + (PrintMembers(members) + x);
      assert ("{" + (PrintMembers(members) + x))[1..] == PrintMembers(members) + x;
      ObjectReads(members, x);
  }

  lemma NumberStart(n: int, x: string)
    ensures (IntegerText(n) + x)[0] != '{'
  {
  }

  lemma {:induction false} ObjectReads(members: seq<Member>, x: string)
    ensures ReadObject(PrintMembers(members) + x) == Some((members, x))
    decreases members, 2
  {
    if members == [] {
      assert ("}" + x)[1..] == x;
    } else {
      MembersStart(members, x);
      MembersRead(members, x);
    }
  }

  lemma LastMember(s: string, m: Member, x: string)
    requires ReadMember(s) == Some((m, "}" + x))
    ensures ReadMembers(s) == Some(([m], x))
  {
    assert ("}" + x)[1..] == x;
  }

  lemma NextMember(s: string, m: Member, tail: string, members: seq<Member>, x: string)
    requires ReadMember(s) == Some((m, "," + tail)) && ReadMembers(tail) == Some((members, x))
    ensures ReadMembers(s) == Some(([m] + members, x))
  {
    assert ("," + tail)[1..] == tail;
  }

  lemma RestText(members: seq<Member>, x: string)
    ensures members == [] ==> PrintRest(members) + x == "}" + x
    ensures members != [] ==> PrintRest(members) + x == "," + (PrintMembers(members) + x)
  {
  }

  lemma {:induction false} HeadReads(members: seq<Member>, x: string)
    requires members != []
    ensures ReadMember(PrintMembers(members) + x) == Some((members[0], PrintRest(members[1..]) + x))
    decreases members, 0
  {
    MembersText(members, x);
    RestStart(members[1..], x);
    MemberReads(members[0], PrintRest(members[1..]) + x);
  }

  lemma {:induction false} MembersRead(members: seq<Member>, x: string)
    requires members != []
    ensures ReadMembers(PrintMembers(members) + x) == Some((members, x))
    decreases members, 1
  {
    var m, more := members[0], members[1..];
    var s, tail := PrintMembers(members) + x, PrintMembers(more) + x;
    HeadReads(members, x);
    RestText(more, x);
    if more == [] {
      LastMember(s, m, x);
      assert [m] == members;
    } else {
      MembersRead(more, x);
      NextMember(s, m, tail, more, x);
      assert [m] + more == members;
    }
  }

  lemma {:induction false} MemberReads(m: Member, rest: string)
    requires rest == "" || !IsDigit(rest[0])
    ensures ReadMember(Quote(m.name) + (":" + (Print(m.value) + rest))) == Some((m, rest))
    decreases m, 0
  {
    var value := Print(m.value) + rest;
    var after := ":" + value;
    QuoteText(m.name, after);
    var inner := Escape(m.name) + "\"" + after;
    assert ("\"" + inner)[1..] == inner && after[1..] == value;
    CharsRead(m.name, after);
    ValueReads(m.value, rest);
  }

  // ----- the note reads back -----

  lemma {:induction false} CodesRead(labels: seq<string>, codes: map<string, nat>)
    requires HasCodes(labels, codes)
    ensures |MembersOf(labels, codes)| == |labels|
    ensures forall i :: 0 <= i < |labels| ==> MembersOf(labels, codes)[i] == Member(labels[i], Number(codes[labels[i]]))
  {
    if labels != [] {
      CodesRead(labels[1..], codes);
    }
  }

  ghost predicate TakenFrom(member: Member, codes: map<string, nat>) {
    member.name in codes && member.value == Number(codes[member.name])
  }

  ghost predicate Names(members: seq<Member>, name: string) {
    exists i :: 0 <= i < |members| && members[i].name == name
  }

  lemma NamesStep(members: seq<Member>, name: string)
    requires members != []
    ensures Names(members, name) <==> Names(members[..|members| - 1], name) || members[|members| - 1].name == name
  {
    var n := |members| - 1;
    if Names(members[..n], name) {
      var i :| 0 <= i < n && members[..n][i].name == name;
      assert members[i].name == name;
    }
    if Names(members, name) && members[n].name != name {
      var i :| 0 <= i < |members| && members[i].name == name;
      assert members[..n][i].name == name;
    }
  }

  /** Members of integer values, all taken from `codes`. */
  lemma {:induction false} DictionaryReads(members: seq<Member>, codes: map<string, nat>)
    requires forall i :: 0 <= i < |members| ==> TakenFrom(members[i], codes)
    ensures CodesIn(members).Some?
    ensures forall name {:trigger Names(members, name)} :: name in CodesIn(members).value <==> Names(members, name)
    ensures forall name :: name in CodesIn(members).value ==> name in codes && CodesIn(members).value[name] == codes[name]
  {
    if members != [] {
      var n := |members| - 1;
      DictionaryReads(members[..n], codes);
      forall name
        ensures name in CodesIn(members).value <==> Names(members, name)
      {
        NamesStep(members, name);
      }
    }
  }

  lemma NoteValue(codes: map<string, nat>)
    ensures HasCodes(SortedKeys(codes.Keys), codes)
    ensures ReadValue(Note(codes))
         == Some((Object([Member("codes", Object(MembersOf(SortedKeys(codes.Keys), codes))), Member("missing", Number(-1))]), ""))
  {
    KeysHaveCodes(codes);
    ValueReads(NoteObject(codes), "");
    assert Note(codes) + "" == Note(codes);
  }

  /** The text of a note: two members, the labels strictly increasing, nothing before or after. */
  lemma NoteText(codes: map<string, nat>) returns (members: seq<Member>)
    ensures ReadValue(Note(codes)) == Some((Object([Member("codes", Object(members)), Member("missing", Number(-1))]), ""))
    ensures forall i, j :: 0 <= i < j < |members| ==> Less(members[i].name, members[j].name)
    ensures forall i :: 0 <= i < |members| ==> TakenFrom(members[i], codes)
    ensures forall name {:trigger Names(members, name)} | name in codes :: Names(members, name)
  {
    NoteValue(codes);
    members := KeyMembers(codes);
  }

  lemma KeyIsNamed(keys: seq<string>, codes: map<string, nat>, name: string)
    requires HasCodes(keys, codes) && name in KeySet(keys)
    ensures Names(MembersOf(keys, codes), name)
  {
    CodesRead(keys, codes);
    var i :| 0 <= i < |keys| && keys[i] == name;
    assert MembersOf(keys, codes)[i].name == name;
  }

  lemma KeysAreTaken(keys: seq<string>, codes: map<string, nat>)
    requires HasCodes(keys, codes) && Sorted(keys)
    ensures var members := MembersOf(keys, codes);
            (forall i, j :: 0 <= i < j < |members| ==> Less(members[i].name, members[j].name))
            && forall i :: 0 <= i < |members| ==> TakenFrom(members[i], codes)
  {
    CodesRead(keys, codes);
  }

  lemma KeyMembers(codes: map<string, nat>) returns (members: seq<Member>)
    ensures HasCodes(SortedKeys(codes.Keys), codes) && members == MembersOf(SortedKeys(codes.Keys), codes)
    ensures forall i, j :: 0 <= i < j < |members| ==> Less(members[i].name, members[j].name)
    ensures forall i :: 0 <= i < |members| ==> TakenFrom(members[i], codes)
    ensures forall name {:trigger Names(members, name)} | name in codes :: Names(members, name)
  {
    KeysHaveCodes(codes);
    var keys := SortedKeys(codes.Keys);
    members := MembersOf(keys, codes);
    KeysAreTaken(keys, codes);
    forall name | name in codes
      ensures Names(members, name)
    {
      KeyIsNamed(keys, codes, name);
    }
  }

  lemma BothMembers(members: seq<Member>)
    ensures var all := [Member("codes", Object(members)), Member("missing", Number(-1))];
            Lookup(all, "missing") == Some(Number(-1)) && Lookup(all, "codes") == Some(Object(members))
  {
    var all := [Member("codes", Object(members)), Member("missing", Number(-1))];
    assert all[..1] == [Member("codes", Object(members))];
    assert Lookup(all, "codes") == Lookup(all[..1], "codes");
  }

  lemma DictionaryIs(members: seq<Member>, codes: map<string, nat>)
    requires forall i :: 0 <= i < |members| ==> TakenFrom(members[i], codes)
    requires forall name {:trigger Names(members, name)} | name in codes :: Names(members, name)
    ensures CodesIn(members) == Some(codes)
  {
    DictionaryReads(members, codes);
    var read := CodesIn(members).value;
    forall name
      ensures name in read <==> name in codes
    {
      assert name in codes ==> Names(members, name);
    }
    SameMap(read, codes);
  }

  lemma SameMap(a: map<string, int>, b: map<string, nat>)
    requires forall name :: name in a <==> name in b
    requires forall name :: name in a ==> name in b && a[name] == b[name]
    ensures a == b
  {
  }

  /** A note reads back to its dictionary and the missing code. */
  lemma NoteReads(codes: map<string, nat>)
    ensures ReadNote(Note(codes)) == Some((codes, -1))
  {
    var members := NoteText(codes);
    BothMembers(members);
    DictionaryIs(members, codes);
  }

  /**
   The form of the escapes: printable ASCII is written as it is, seven characters have a short
   form, and everything else is written with `\u` and lower-case hex digits.
   */
  lemma EscapeForm(c: char)
    ensures ' ' <= c <= '~' && c != '"' && c != '\\' ==> EscapeChar(c) == [c]
    ensures EscapeChar('"') == "\\\"" && EscapeChar('\\') == "\\\\" && EscapeChar('\n') == "\\n"
    ensures EscapeChar('\r') == "\\r" && EscapeChar('\t') == "\\t"
    ensures EscapeChar('\U{0008}') == "\\b" && EscapeChar('\U{000C}') == "\\f"
    ensures |EscapeChar(c)| > 2 ==> |EscapeChar(c)| == (if (c as int) < 0x1_0000 then 6 else 12)
    ensures |EscapeChar(c)| > 2 ==>
      forall i :: 2 <= i < 6 || 8 <= i < |EscapeChar(c)| ==>
        '0' <= EscapeChar(c)[i] <= '9' || 'a' <= EscapeChar(c)[i] <= 'f'
  {
  }
}
