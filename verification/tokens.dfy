/** How one table field is read: blank, integer, float or text. */
module Tokens {
  import opened Wrappers
  import opened Decimals

  /** Digits the interpreter converts at most; a longer integer token raises. */
  const MAX_INT_DIGITS: nat := 4300
  const INT64_LIMIT: int := 0x8000_0000_0000_0000
  const BOM: char := '\U{FEFF}'

  /**
   The float type and its library: text conversion, integer conversion and the two tests.
   Rounding is not modelled; the claims are about which value is stored where.
   */
  datatype FloatLib<!F> = FloatLib(
    parse: string -> Option<F>, ofInt: int -> F, nan: F, isFinite: F -> bool, isNan: F -> bool)

  /** `Refused` is the error of an integer token with too many digits. */
  datatype Cell<F> = Blank | Int(v: int) | Float(f: F) | Text(token: string) | Refused

  // ----- trimming -----

  predicate IsSpace(c: char) {
    || '\U{0009}' <= c <= '\U{000D}' || '\U{001C}' <= c <= ' '
    || c == '\U{0085}' || c == '\U{00A0}' || c == '\U{1680}' || '\U{2000}' <= c <= '\U{200A}'
    || c == '\U{2028}' || c == '\U{2029}' || c == '\U{202F}' || c == '\U{205F}' || c == '\U{3000}'
  }

  predicate AllSpace(s: string) {
    forall i :: 0 <= i < |s| ==> IsSpace(s[i])
  }

  predicate AllBom(s: string) {
    forall i :: 0 <= i < |s| ==> s[i] == BOM
  }

  function StripLeft(s: string): string {
    if s != "" && IsSpace(s[0]) then StripLeft(s[1..]) else s
  }

  function StripRight(s: string): string {
    if s != "" && IsSpace(s[|s| - 1]) then StripRight(s[..|s| - 1]) else s
  }

  function DropBom(s: string): string {
    if s != "" && s[0] == BOM then DropBom(s[1..]) else s
  }

  /** The field without surrounding whitespace, then without leading byte-order marks. */
  function Trim(field: string): string {
    DropBom(StripRight(StripLeft(field)))
  }

  // ----- classification -----

  predicate IsSign(c: char) {
    c == '+' || c == '-'
  }

  function Unsigned(token: string): string {
    if token != "" && IsSign(token[0]) then token[1..] else token
  }

  predicate PlainInteger(token: string) {
    Unsigned(token) != "" && AllDigits(Unsigned(token))
  }

  function IntegerValue(token: string): int
    requires PlainInteger(token)
  {
    if token[0] == '-' then 0 - DigitsValue(Unsigned(token)) else DigitsValue(Unsigned(token))
  }

  function Lower(s: string): string {
    if s == "" then ""
    else [if 'A' <= s[0] <= 'Z' then ((s[0] as int) + 32) as char else s[0]] + Lower(s[1..])
  }

  predicate NonFinite(token: string) {
    Lower(token) in {"nan", "inf", "+inf", "-inf", "infinity", "+infinity", "-infinity"}
  }

  predicate InInt64(v: int) {
    -INT64_LIMIT <= v < INT64_LIMIT
  }

  function ClassifyFloat<F>(lib: FloatLib<F>, token: string): Cell<F> {
    match lib.parse(token)
    case None => Text(token)
    case Some(x) => if lib.isFinite(x) || NonFinite(token) then Float(x) else Text(token)
  }

  function Classify<F>(lib: FloatLib<F>, field: string): Cell<F> {
    var token := Trim(field);
    if token == "" then Blank
    else if !PlainInteger(token) then ClassifyFloat(lib, token)
    else if |Unsigned(token)| > MAX_INT_DIGITS then Refused
    else if InInt64(IntegerValue(token)) then Int(IntegerValue(token))
    else ClassifyFloat(lib, token)
  }

  // ----- which fields are integers -----

  /** `field` is a decimal notation of `v`: padding, byte-order marks, an optional sign, digits, padding. */
  ghost predicate Notation(field: string, left: string, boms: string, token: string, right: string) {
    && field == left + (boms + (token + right))
    && AllSpace(left) && AllSpace(right) && AllBom(boms)
  }

  ghost predicate Denotes(field: string, v: int) {
    exists left, boms, token, right ::
      Notation(field, left, boms, token, right)
      && PlainInteger(token) && |Unsigned(token)| <= 4300 && IntegerValue(token) == v
  }

  lemma {:induction false} StripLeftSplits(s: string) returns (left: string)
    ensures s == left + StripLeft(s) && AllSpace(left)
  {
    if s != "" && IsSpace(s[0]) {
      var rest := StripLeftSplits(s[1..]);
      left := [s[0]] + rest;
    } else {
      left := "";
    }
  }

  lemma {:induction false} StripRightSplits(s: string) returns (right: string)
    ensures s == StripRight(s) + right && AllSpace(right)
  {
    if s != "" && IsSpace(s[|s| - 1]) {
      var rest := StripRightSplits(s[..|s| - 1]);
      right := rest + [s[|s| - 1]];
      assert s == s[..|s| - 1] + [s[|s| - 1]];
    } else {
      right := "";
    }
  }

  lemma {:induction false} DropBomSplits(s: string) returns (boms: string)
    ensures s == boms + DropBom(s) && AllBom(boms)
  {
    if s != "" && s[0] == BOM {
      var rest := DropBomSplits(s[1..]);
      boms := [s[0]] + rest;
    } else {
      boms := "";
    }
  }

  /** Every field is its token with padding around it. */
  lemma TrimSplits(field: string) returns (left: string, boms: string, right: string)
    ensures Notation(field, left, boms, Trim(field), right)
  {
    left := StripLeftSplits(field);
    right := StripRightSplits(StripLeft(field));
    boms := DropBomSplits(StripRight(StripLeft(field)));
  }

  lemma {:induction false} StripLeftPadding(left: string, s: string)
    requires AllSpace(left) && s != "" && !IsSpace(s[0])
    ensures StripLeft(left + s) == s
  {
    if left == "" {
      assert left + s == s;
    } else {
      assert (left + s)[1..] == left[1..] + s;
      StripLeftPadding(left[1..], s);
    }
  }

  lemma {:induction false} StripRightPadding(s: string, right: string)
    requires AllSpace(right) && s != "" && !IsSpace(s[|s| - 1])
    ensures StripRight(s + right) == s
  {
    if right == "" {
      assert s + right == s;
    } else {
      assert (s + right)[..|s + right| - 1] == s + right[..|right| - 1];
      StripRightPadding(s, right[..|right| - 1]);
    }
  }

  lemma {:induction false} DropBomPadding(boms: string, s: string)
    requires AllBom(boms) && s != "" && s[0] != BOM
    ensures DropBom(boms + s) == s
  {
    if boms == "" {
      assert boms + s == s;
    } else {
      assert (boms + s)[1..] == boms[1..] + s;
      DropBomPadding(boms[1..], s);
    }
  }

  lemma IntegerEnds(token: string)
    requires PlainInteger(token)
    ensures token != "" && !IsSpace(token[0]) && token[0] != BOM && !IsSpace(token[|token| - 1])
  {
    var digits := Unsigned(token);
    assert IsDigit(digits[0]) && IsDigit(digits[|digits| - 1]);
    assert token[|token| - 1] == digits[|digits| - 1];
  }

  /** Padding does not hide an integer token. */
  lemma TrimPadding(field: string, left: string, boms: string, token: string, right: string)
    requires Notation(field, left, boms, token, right) && PlainInteger(token)
    ensures Trim(field) == token
  {
    IntegerEnds(token);
    var core := boms + token;
    assert field == left + (core + right);
    assert (core + right)[0] == core[0] == if boms == "" then token[0] else boms[0];
    StripLeftPadding(left, core + right);
    assert core[|core| - 1] == token[|token| - 1];
    StripRightPadding(core, right);
    DropBomPadding(boms, token);
  }

  /**
   A field is read as the integer `v` exactly when it is a decimal notation of `v` and `v`
   fits 64 bits.
   */
  lemma IntegerFields<F>(lib: FloatLib<F>, field: string, v: int)
    ensures Classify(lib, field) == Int(v) <==> Denotes(field, v) && InInt64(v)
  {
    if Classify(lib, field) == Int(v) {
      var left, boms, right := TrimSplits(field);
      assert Notation(field, left, boms, Trim(field), right);
    }
    if Denotes(field, v) && InInt64(v) {
      var left, boms, token, right :|
        Notation(field, left, boms, token, right)
        && PlainInteger(token) && |Unsigned(token)| <= MAX_INT_DIGITS && IntegerValue(token) == v;
      TrimPadding(field, left, boms, token, right);
    }
  }

  // ----- printing an integer and reading it back -----

  /** `field` notates an integer with more digits than the interpreter converts. */
  ghost predicate HasTooManyDigits(field: string) {
    exists left, boms, token, right ::
      Notation(field, left, boms, token, right) && PlainInteger(token) && |Unsigned(token)| > 4300
  }

  /** Exactly the integer notations with too many digits are refused. */
  lemma RefusedFields<F>(lib: FloatLib<F>, field: string)
    ensures Classify(lib, field).Refused? <==> HasTooManyDigits(field)
  {
    if HasTooManyDigits(field) {
      var left, boms, token, right :|
        Notation(field, left, boms, token, right) && PlainInteger(token) && |Unsigned(token)| > 4300;
      TrimPadding(field, left, boms, token, right);
    }
    if Classify(lib, field).Refused? {
      var left, boms, right := TrimSplits(field);
      assert Notation(field, left, boms, Trim(field), right);
    }
  }

  // ----- the token of a field -----

  /** The whitespace characters, by code point. */
  lemma SpacesAre(c: char)
    ensures var point := c as int;
            IsSpace(c)
            <==> 9 <= point <= 13 || 28 <= point <= 32 || point == 0x85 || point == 0xA0 || point == 0x1680
                 || 0x2000 <= point <= 0x200A || point == 0x2028 || point == 0x2029 || point == 0x202F
                 || point == 0x205F || point == 0x3000
  {
  }

  /** Stripping leaves no whitespace at either end. */
  lemma {:induction false} StripLeftClean(s: string)
    ensures StripLeft(s) != "" ==> !IsSpace(StripLeft(s)[0])
  {
    if s != "" && IsSpace(s[0]) {
      StripLeftClean(s[1..]);
    }
  }

  lemma {:induction false} StripRightClean(s: string)
    ensures StripRight(s) <= s
    ensures StripRight(s) != "" ==> !IsSpace(StripRight(s)[|StripRight(s)| - 1])
  {
    if s != "" && IsSpace(s[|s| - 1]) {
      StripRightClean(s[..|s| - 1]);
    }
  }

  lemma {:induction false} DropBomClean(s: string)
    ensures DropBom(s) != "" ==> DropBom(s)[0] != BOM
  {
    if s != "" && s[0] == BOM {
      DropBomClean(s[1..]);
    }
  }

  lemma StripMeans(field: string) returns (left: string, right: string)
    ensures var stripped := StripRight(StripLeft(field));
            field == left + (stripped + right)
            && (stripped != "" ==> !IsSpace(stripped[0]) && !IsSpace(stripped[|stripped| - 1]))
    ensures AllSpace(left) && AllSpace(right)
  {
    left := StripLeftSplits(field);
    right := StripRightSplits(StripLeft(field));
    StripLeftClean(field);
    StripRightClean(StripLeft(field));
  }

  lemma Nest(a: string, b: string, c: string, d: string)
    ensures a + ((b + c) + d) == a + (b + (c + d))
  {
  }

  /**
   The token of a field: without the whitespace at both ends, and then without the byte-order
   marks in front. Nothing more is cut off and nothing less.
   */
  lemma TrimMeans(field: string) returns (left: string, boms: string, right: string)
    ensures field == left + (boms + (Trim(field) + right))
    ensures AllSpace(left) && AllSpace(right) && forall i :: 0 <= i < |boms| ==> boms[i] == '\U{FEFF}'
    ensures var stripped := boms + Trim(field);
            stripped != "" ==> !IsSpace(stripped[0]) && !IsSpace(stripped[|stripped| - 1])
    ensures Trim(field) != "" ==> Trim(field)[0] != '\U{FEFF}'
  {
    left, right := StripMeans(field);
    boms := DropBomSplits(StripRight(StripLeft(field)));
    DropBomClean(StripRight(StripLeft(field)));
    Nest(left, boms, Trim(field), right);
  }

  // ----- blanks, floats and texts -----

  /** The token is one of the spellings of NaN and infinity, in any mix of cases. */
  lemma NonFiniteMeans(token: string)
    ensures NonFinite(token)
       <==> SameButCase(token, "nan")
            || SameButCase(token, "inf") || SameButCase(token, "+inf") || SameButCase(token, "-inf")
            || SameButCase(token, "infinity") || SameButCase(token, "+infinity") || SameButCase(token, "-infinity")
  {
    LowerIs(token, "nan");
    LowerIs(token, "inf");
    LowerIs(token, "+inf");
    LowerIs(token, "-inf");
    LowerIs(token, "infinity");
    LowerIs(token, "+infinity");
    LowerIs(token, "-infinity");
  }

  /** Letter by letter the same, or the capital of it. */
  ghost predicate SameButCase(token: string, word: string) {
    && |token| == |word|
    && forall i :: 0 <= i < |word| ==>
         if 'A' <= token[i] <= 'Z' then (token[i] as int) + 32 == word[i] as int else token[i] == word[i]
  }

  lemma {:induction false} LowerAt(s: string)
    ensures |Lower(s)| == |s|
    ensures forall i :: 0 <= i < |s| ==> Lower(s)[i] == if 'A' <= s[i] <= 'Z' then ((s[i] as int) + 32) as char else s[i]
  {
    if s != "" {
      LowerAt(s[1..]);
    }
  }

  lemma LowerIs(token: string, w: string)
    ensures Lower(token) == w <==> SameButCase(token, w)
  {
    LowerAt(token);
    if SameButCase(token, w) {
      forall i | 0 <= i < |w|
        ensures Lower(token)[i] == w[i]
      {
      }
    }
  }

  /** An integer token: an optional sign and one digit at least; its value is that of the digits, signed. */
  lemma PlainIntegerMeans(token: string)
    ensures PlainInteger(token)
       <==> token != ""
            && var digits := if token[0] == '+' || token[0] == '-' then token[1..] else token;
               digits != "" && forall i :: 0 <= i < |digits| ==> '0' <= digits[i] <= '9'
    ensures PlainInteger(token) ==>
      && (token[0] == '-' ==> IntegerValue(token) + DigitsValue(token[1..]) == 0)
      && (token[0] == '+' ==> IntegerValue(token) == DigitsValue(token[1..]))
      && (token[0] != '-' && token[0] != '+' ==> IntegerValue(token) == DigitsValue(token))
  {
  }

  /** A field that is no integer notation, or one whose value does not fit 64 bits. */
  ghost predicate NotInteger(field: string) {
    !HasTooManyDigits(field) && forall v :: Denotes(field, v) ==> !(-0x8000_0000_0000_0000 <= v < 0x8000_0000_0000_0000)
  }

  lemma NotIntegerMeans<F>(lib: FloatLib<F>, field: string)
    ensures NotInteger(field) <==> !Classify(lib, field).Int? && !Classify(lib, field).Refused?
  {
    RefusedFields(lib, field);
    if Classify(lib, field).Int? {
      IntegerFields(lib, field, Classify(lib, field).v);
      assert Denotes(field, Classify(lib, field).v);
    }
    forall v | Denotes(field, v)
      ensures InInt64(v) ==> Classify(lib, field) == Int(v)
    {
      IntegerFields(lib, field, v);
    }
  }

  /** The three other classes, by the token and the float library. */
  lemma OtherFields<F>(lib: FloatLib<F>, field: string)
    ensures Classify(lib, field).Blank? <==> Trim(field) == ""
    ensures Classify(lib, field).Float?
       <==> Trim(field) != "" && NotInteger(field) && lib.parse(Trim(field)).Some?
            && (lib.isFinite(lib.parse(Trim(field)).value) || NonFinite(Trim(field)))
    ensures Classify(lib, field).Float? ==> lib.parse(Trim(field)) == Some(Classify(lib, field).f)
    ensures Classify(lib, field).Text?
       <==> Trim(field) != "" && NotInteger(field)
            && (lib.parse(Trim(field)).None?
                || (!lib.isFinite(lib.parse(Trim(field)).value) && !NonFinite(Trim(field))))
    ensures Classify(lib, field).Text? ==> Classify(lib, field).token == Trim(field)
  {
    NotIntegerMeans(lib, field);
  }

  lemma {:induction false} DecimalLength(n: nat, digits: nat, bound: nat)
    requires digits > 0 && n < bound && bound == Power10(digits)
    ensures |Decimal(n)| <= digits
  {
    if n >= 10 {
      DecimalLength(n / 10, digits - 1, Power10(digits - 1));
    }
  }

  function Power10(n: nat): nat {
    if n == 0 then 1 else 10 * Power10(n - 1)
  }

  lemma Int64Digits(n: nat)
    requires n <= INT64_LIMIT
    ensures |Decimal(n)| <= 19
  {
    assert Power10(9) == 1_000_000_000;
    assert Power10(19) == 10_000_000_000_000_000_000;
    DecimalLength(n, 19, Power10(19));
  }

  /** The text of an integer, with a plus sign in front of a non-negative one if asked. */
  function Printed(v: int, plus: bool): string {
    if plus && v >= 0 then "+" + IntegerText(v) else IntegerText(v)
  }

  lemma PrintedIsPlain(v: int, plus: bool)
    requires InInt64(v)
    ensures PlainInteger(Printed(v, plus)) && |Unsigned(Printed(v, plus))| <= MAX_INT_DIGITS
    ensures IntegerValue(Printed(v, plus)) == v
  {
    var magnitude := if v < 0 then -v else v;
    var text := Printed(v, plus);
    assert IsDigit(Decimal(magnitude)[0]);
    assert Unsigned(text) == Decimal(magnitude);
    assert text[0] == '-' <==> v < 0;
    DecimalValue(magnitude);
    Int64Digits(magnitude);
  }

  lemma PrintedDenotes(v: int, left: string, right: string, plus: bool)
    requires InInt64(v) && AllSpace(left) && AllSpace(right)
    ensures Denotes(left + (Printed(v, plus) + right), v)
  {
    var text := Printed(v, plus);
    PrintedIsPlain(v, plus);
    assert left + (text + right) == left + ("" + (text + right));
    assert Notation(left + (text + right), left, "", text, right);
  }

  /** Every 64-bit integer survives printing and reading, with any padding and an optional plus sign. */
  lemma IntegerRoundTrip<F>(lib: FloatLib<F>, v: int, left: string, right: string, plus: bool)
    requires InInt64(v) && AllSpace(left) && AllSpace(right)
    ensures Classify(lib, left + (Printed(v, plus) + right)) == Int(v)
  {
    PrintedDenotes(v, left, right, plus);
    IntegerFields(lib, left + (Printed(v, plus) + right), v);
  }
}
