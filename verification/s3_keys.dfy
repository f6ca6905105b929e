/** Relative keys of a Zarr store under an S3 prefix, and the full object keys they stand for. */
module S3Keys {
  import opened Wrappers

  // ----- trimming slashes -----

  function TrimLeft(s: string): string {
    if s != "" && s[0] == '/' then TrimLeft(s[1..]) else s
  }

  function TrimRight(s: string): string {
    if s != "" && s[|s| - 1] == '/' then TrimRight(s[..|s| - 1]) else s
  }

  function TrimSlashes(s: string): string {
    TrimRight(TrimLeft(s))
  }

  // ----- which keys belong to a Zarr store -----

  /** The part after the last slash. */
  function LastPart(s: string): string {
    if s == "" then "" else if '/' !in s then s else LastPart(s[1..])
  }

  function Parts(s: string): seq<string> {
    SplitOn(s, "")
  }

  function SplitOn(s: string, part: string): seq<string> {
    if s == "" then [part]
    else if s[0] == '/' then [part] + SplitOn(s[1..], "")
    else SplitOn(s[1..], part + [s[0]])
  }

  function WithoutDots(s: string): string {
    if s == "" then "" else (if s[0] == '.' then "" else [s[0]]) + WithoutDots(s[1..])
  }

  /** `isDigit` is the interpreter's digit test on one character. */
  predicate AllDigits(isDigit: char -> bool, s: string) {
    s != "" && forall i :: 0 <= i < |s| ==> isDigit(s[i])
  }

  predicate LooksLikeStoreKey(isDigit: char -> bool, rel: string) {
    var name := LastPart(rel);
    || name in {"zarr.json", ".zarray", ".zgroup", ".zattrs", ".zmetadata"}
    || AllDigits(isDigit, name) || AllDigits(isDigit, WithoutDots(name))
    || "c" in Parts(rel)
  }

  // ----- listing and expanding -----

  /** The key relative to the prefix, when the object lies under `prefix/`. */
  function Relative(prefix: string, key: string): Option<string> {
    if prefix == "" then Some(key)
    else if prefix + "/" <= key then Some(key[|prefix| + 1..])
    else None
  }

  /** Keys under the prefix, relative to it; `keys` is what the bucket lists for the prefix text. */
  function ListPrefix(prefix: string, keys: seq<string>): (rels: seq<string>)
    ensures forall rel :: rel in rels <==> exists key :: key in keys && Relative(prefix, key) == Some(rel)
  {
    if keys == [] then
      []
    else
      var rest := ListPrefix(prefix, keys[1..]);
      assert keys == [keys[0]] + keys[1..];
      match Relative(prefix, keys[0])
      case None => rest
      case Some(rel) => [rel] + rest
  }

  function Kept(isDigit: char -> bool, rels: seq<string>): (kept: seq<string>)
    ensures forall rel :: rel in kept <==> rel in rels && LooksLikeStoreKey(isDigit, rel)
  {
    if rels == [] then []
    else (if LooksLikeStoreKey(isDigit, rels[0]) then [rels[0]] else []) + Kept(isDigit, rels[1..])
  }

  /** The object key a relative key stands for. */
  function Full(prefix: string, rel: string): string {
    var trimmed := TrimLeft(rel);
    if prefix == "" then trimmed
    else if trimmed == "" then prefix
    else prefix + "/" + trimmed
  }

  /** The lazy key map of one prefix. The listing is fetched once and kept. */
  class S3ZarrMap {
    const prefix: string
    const isDigit: char -> bool
    var keys: Option<seq<string>>

    constructor (prefix: string, isDigit: char -> bool)
      ensures this.prefix == TrimSlashes(prefix) && this.isDigit == isDigit && keys == None
    {
      this.prefix := TrimSlashes(prefix);
      this.isDigit := isDigit;
      keys := None;
    }

    /** `listing` is what the bucket lists now; a listing already kept wins. */
    method ListedKeys(listing: seq<string>) returns (rels: seq<string>)
      modifies this
      ensures keys == Some(rels)
      ensures rels == if old(keys).Some? then old(keys).value else Kept(isDigit, ListPrefix(prefix, listing))
    {
      if keys.None? {
        keys := Some(Kept(isDigit, ListPrefix(prefix, listing)));
      }
      rels := keys.value;
    }
  }

  // ----- the round trip -----

  predicate Rooted(rel: string) {
    rel != "" && rel[0] == '/'
  }

  lemma {:induction false} TrimLeftShrinks(s: string)
    ensures |TrimLeft(s)| <= |s| && (Rooted(s) ==> |TrimLeft(s)| < |s|)
    ensures !Rooted(s) ==> TrimLeft(s) == s
  {
    if Rooted(s) {
      TrimLeftShrinks(s[1..]);
    }
  }

  lemma EmptyIsNoStoreKey(isDigit: char -> bool)
    ensures !LooksLikeStoreKey(isDigit, "")
  {
    assert Parts("") == [""];
    assert WithoutDots("") == "";
  }

  /** A listed key expands to the object it came from exactly when it does not start with a slash. */
  lemma ExpandsBack(prefix: string, isDigit: char -> bool, key: string, rel: string)
    requires Relative(prefix, key) == Some(rel) && LooksLikeStoreKey(isDigit, rel)
    ensures Full(prefix, rel) == key <==> !Rooted(rel)
  {
    EmptyIsNoStoreKey(isDigit);
    TrimLeftShrinks(rel);
    if prefix != "" {
      assert key == prefix + "/" + rel;
    }
  }

  ghost predicate NoneRooted(rels: seq<string>) {
    forall rel :: rel in rels ==> !Rooted(rel)
  }

  /**
   Every iterated key is contained: it expands to an object of the listing, distinct keys to
   distinct objects, and every store object under the prefix is iterated.
   */
  lemma KeysRoundTrip(prefix: string, isDigit: char -> bool, objects: seq<string>)
    requires NoneRooted(ListPrefix(prefix, objects))
    ensures var rels := Kept(isDigit, ListPrefix(prefix, objects));
            (forall rel :: rel in rels ==> Full(prefix, rel) in objects)
            && (forall r, q | r in rels && q in rels && Full(prefix, r) == Full(prefix, q) :: r == q)
            && (forall key | key in objects && Relative(prefix, key).Some?
                             && LooksLikeStoreKey(isDigit, Relative(prefix, key).value) ::
                  Relative(prefix, key).value in rels && Full(prefix, Relative(prefix, key).value) == key)
  {
    var rels := Kept(isDigit, ListPrefix(prefix, objects));
    forall rel | rel in rels
      ensures Full(prefix, rel) in objects && Relative(prefix, Full(prefix, rel)) == Some(rel)
    {
      var key :| key in objects && Relative(prefix, key) == Some(rel);
      ExpandsBack(prefix, isDigit, key, rel);
    }
    forall key | key in objects && Relative(prefix, key).Some?
                 && LooksLikeStoreKey(isDigit, Relative(prefix, key).value)
      ensures Relative(prefix, key).value in rels && Full(prefix, Relative(prefix, key).value) == key
    {
      ExpandsBack(prefix, isDigit, key, Relative(prefix, key).value);
    }
  }

  /** A doubled slash after the prefix is lost: the iterated key expands to another object. */
  lemma DoubledSlashIsLost(isDigit: char -> bool)
    ensures Relative("p", "p//c") == Some("/c")
    ensures LooksLikeStoreKey(isDigit, "/c")
    ensures Full("p", "/c") == "p/c"
  {
    assert Parts("/c") == [""] + SplitOn("c", "");
    assert "c"[1..] == "" && "" + ['c'] == "c";
    assert SplitOn("c", "") == SplitOn("", "c") == ["c"];
    assert Parts("/c")[1] == "c";
    assert TrimLeft("/c") == TrimLeft("c") == "c";
  }

  // ----- what the helpers mean -----

  /** The prefix without the slashes at both ends. */
  lemma TrimSlashesMeans(s: string) returns (left: string, right: string)
    ensures s == left + (TrimSlashes(s) + right)
    ensures forall i :: 0 <= i < |left| ==> left[i] == '/'
    ensures forall i :: 0 <= i < |right| ==> right[i] == '/'
    ensures TrimSlashes(s) != "" ==> TrimSlashes(s)[0] != '/' && TrimSlashes(s)[|TrimSlashes(s)| - 1] != '/'
  {
    left := TrimLeftMeans(s);
    right := TrimRightMeans(TrimLeft(s));
  }

  lemma {:induction false} TrimLeftMeans(s: string) returns (left: string)
    ensures s == left + TrimLeft(s) && forall i :: 0 <= i < |left| ==> left[i] == '/'
    ensures !Rooted(TrimLeft(s))
  {
    if Rooted(s) {
      var rest := TrimLeftMeans(s[1..]);
      left := ['/'] + rest;
    } else {
      left := "";
    }
  }

  lemma {:induction false} TrimRightMeans(s: string) returns (right: string)
    ensures s == TrimRight(s) + right && forall i :: 0 <= i < |right| ==> right[i] == '/'
    ensures TrimRight(s) != "" ==> TrimRight(s)[|TrimRight(s)| - 1] != '/'
  {
    if s != "" && s[|s| - 1] == '/' {
      var rest := TrimRightMeans(s[..|s| - 1]);
      right := rest + ['/'];
      assert s == s[..|s| - 1] + ['/'];
    } else {
      right := "";
    }
  }

  /** A relative key is what follows the prefix and a slash. */
  lemma RelativeMeans(prefix: string, key: string, rel: string)
    ensures Relative(prefix, key) == Some(rel) <==> key == if prefix == "" then rel else prefix + "/" + rel
  {
    var head := prefix + "/";
    if prefix != "" && head <= key {
      assert key == head + key[|head|..];
    }
  }

  /** `name` is the part of `rel` after its last slash, or all of it. */
  ghost predicate IsLastPart(rel: string, name: string) {
    && '/' !in name && |name| <= |rel| && rel[|rel| - |name|..] == name
    && (|name| < |rel| ==> rel[|rel| - |name| - 1] == '/')
  }

  lemma {:induction false} LastPartMeans(rel: string)
    ensures IsLastPart(rel, LastPart(rel))
  {
    if rel == "" {
    } else if '/' !in rel {
      assert rel[0..] == rel;
    } else {
      LastPartMeans(rel[1..]);
      var name := LastPart(rel[1..]);
      assert rel[|rel| - |name|..] == rel[1..][|rel| - 1 - |name|..];
    }
  }

  /** `part` stands in `rel` at `at`, between slashes or the ends. */
  ghost predicate IsPartAt(rel: string, part: string, at: nat) {
    && at + |part| <= |rel| && rel[at..at + |part|] == part && '/' !in part
    && (at > 0 ==> rel[at - 1] == '/')
    && (at + |part| < |rel| ==> rel[at + |part|] == '/')
  }

  ghost predicate OnlyDots(name: string) {
    forall i :: 0 <= i < |name| ==> name[i] == '.'
  }

  ghost predicate DotsAndDigits(isDigit: char -> bool, name: string) {
    forall i :: 0 <= i < |name| ==> name[i] == '.' || isDigit(name[i])
  }

  ghost predicate OnlyDigits(isDigit: char -> bool, name: string) {
    forall i :: 0 <= i < |name| ==> isDigit(name[i])
  }

  lemma NameStep(isDigit: char -> bool, c: char, s: string)
    ensures OnlyDots([c] + s) <==> c == '.' && OnlyDots(s)
    ensures DotsAndDigits(isDigit, [c] + s) <==> (c == '.' || isDigit(c)) && DotsAndDigits(isDigit, s)
    ensures OnlyDigits(isDigit, [c] + s) <==> isDigit(c) && OnlyDigits(isDigit, s)
  {
    var all := [c] + s;
    assert forall i :: 0 <= i < |s| ==> all[i + 1] == s[i];
    assert all[0] == c;
  }

  /** A dotted name without its dots is digits exactly when all its characters are dots or digits. */
  lemma {:induction false} DottedMeans(isDigit: char -> bool, name: string)
    ensures WithoutDots(name) == "" <==> OnlyDots(name)
    ensures OnlyDigits(isDigit, WithoutDots(name)) <==> DotsAndDigits(isDigit, name)
  {
    if name != "" {
      DottedMeans(isDigit, name[1..]);
      assert name == [name[0]] + name[1..];
      NameStep(isDigit, name[0], name[1..]);
      NameStep(isDigit, name[0], WithoutDots(name[1..]));
      assert WithoutDots(name)
          == if name[0] == '.' then WithoutDots(name[1..]) else [name[0]] + WithoutDots(name[1..]);
    }
  }

  lemma SlashBefore(rel: string, name: string, k: nat)
    requires IsLastPart(rel, name) && k < |rel| && rel[k] == '/'
    ensures k < |rel| - |name|
  {
    var from := |rel| - |name|;
    assert forall p :: from <= p < |rel| ==> rel[p] == rel[from..][p - from];
  }

  lemma LastPartUnique(rel: string, a: string, b: string)
    requires IsLastPart(rel, a) && IsLastPart(rel, b)
    ensures |a| <= |b|
  {
    if |b| < |rel| {
      SlashBefore(rel, a, |rel| - |b| - 1);
    }
  }

  lemma SliceOfTail(s: string, m: nat, k: nat, n: nat)
    requires m + k + n <= |s|
    ensures s[m..][k..k + n] == s[m + k..m + k + n]
  {
  }

  lemma OnlyPart(part: string, x: string, at: nat)
    requires '/' !in part && IsPartAt(part, x, at)
    ensures at == 0 && x == part
  {
  }

  lemma FirstPart(part: string, s: string, x: string, at: nat)
    requires '/' !in part && IsPartAt(part + ("/" + s), x, at)
    ensures (at == 0 && x == part) || (at > |part| && IsPartAt(s, x, at - |part| - 1))
  {
    var rel := part + ("/" + s);
    assert rel[|part|] == '/';
    assert forall p :: 0 <= p < |part| ==> rel[p] == part[p];
    assert s == rel[|part| + 1..];
    if at == 0 {
      assert x == rel[..|x|];
      assert forall p :: 0 <= p < |x| ==> x[p] == rel[p];
    } else if at > |part| {
      SliceOfTail(rel, |part| + 1, at - |part| - 1, |x|);
    }
  }

  lemma PartOfTail(part: string, s: string, x: string, at: nat)
    requires IsPartAt(s, x, at)
    ensures IsPartAt(part + ("/" + s), x, |part| + 1 + at)
  {
    var rel := part + ("/" + s);
    assert s == rel[|part| + 1..];
    assert rel[|part| + 1 + at..|part| + 1 + at + |x|] == s[at..at + |x|];
  }

  lemma {:induction false} SplitOnMeans(s: string, part: string, x: string)
    requires '/' !in part
    ensures x in SplitOn(s, part) <==> exists at: nat :: IsPartAt(part + s, x, at)
  {
    if s == "" {
      assert part + s == part;
      if x == part {
        assert IsPartAt(part, x, 0);
      }
      forall at: nat | IsPartAt(part, x, at)
        ensures x == part
      {
        OnlyPart(part, x, at);
      }
    } else if s[0] == '/' {
      var tail := s[1..];
      assert s == "/" + tail && "" + tail == tail;
      SplitOnMeans(tail, "", x);
      forall at: nat | IsPartAt(part + s, x, at)
        ensures x == part || exists k: nat :: IsPartAt(tail, x, k)
      {
        FirstPart(part, tail, x, at);
      }
      forall k: nat | IsPartAt(tail, x, k)
        ensures IsPartAt(part + s, x, |part| + 1 + k)
      {
        PartOfTail(part, tail, x, k);
      }
      if x == part {
        assert (part + s)[..|part|] == part;
        assert IsPartAt(part + s, x, 0);
      }
    } else {
      assert part + s == part + [s[0]] + s[1..];
      SplitOnMeans(s[1..], part + [s[0]], x);
    }
  }

  /** A metadata name, or digits, or dots and digits with a character that is no dot. */
  ghost predicate IsKeyName(isDigit: char -> bool, name: string) {
    || name == "zarr.json" || name == ".zarray" || name == ".zgroup" || name == ".zattrs" || name == ".zmetadata"
    || (name != "" && OnlyDigits(isDigit, name))
    || (!OnlyDots(name) && DotsAndDigits(isDigit, name))
  }

  lemma KeyNameMeans(isDigit: char -> bool, name: string)
    ensures IsKeyName(isDigit, name)
       <==> name in {"zarr.json", ".zarray", ".zgroup", ".zattrs", ".zmetadata"}
            || AllDigits(isDigit, name) || AllDigits(isDigit, WithoutDots(name))
  {
    DottedMeans(isDigit, name);
    assert AllDigits(isDigit, name) <==> name != "" && OnlyDigits(isDigit, name);
    assert AllDigits(isDigit, WithoutDots(name)) <==> WithoutDots(name) != "" && OnlyDigits(isDigit, WithoutDots(name));
  }

  /** Which keys are iterated: those whose last part is a key name, and those with a part `c`. */
  lemma StoreKeyMeans(isDigit: char -> bool, rel: string)
    ensures LooksLikeStoreKey(isDigit, rel)
       <==> (exists name {:trigger IsLastPart(rel, name)} :: IsLastPart(rel, name) && IsKeyName(isDigit, name))
            || exists at: nat :: IsPartAt(rel, "c", at)
  {
    var name := LastPart(rel);
    LastPartMeans(rel);
    KeyNameMeans(isDigit, name);
    forall other | IsLastPart(rel, other)
      ensures other == name
    {
      LastPartUnique(rel, name, other);
      LastPartUnique(rel, other, name);
    }
    assert "" + rel == rel;
    SplitOnMeans(rel, "", "c");
  }

  // ----- the iteration keeps the order of the listing -----

  /** The listed objects that are iterated, in the order of the listing. */
  lemma {:induction false} KeysInOrder(prefix: string, isDigit: char -> bool, objects: seq<string>)
    ensures Kept(isDigit, ListPrefix(prefix, objects))
         == if objects == [] then []
            else (match Relative(prefix, objects[0])
                  case None => []
                  case Some(rel) => if LooksLikeStoreKey(isDigit, rel) then [rel] else [])
                 + Kept(isDigit, ListPrefix(prefix, objects[1..]))
  {
    if objects != [] && Relative(prefix, objects[0]).Some? {
      var rel := Relative(prefix, objects[0]).value;
      assert ([rel] + ListPrefix(prefix, objects[1..]))[1..] == ListPrefix(prefix, objects[1..]);
    }
  }
}
