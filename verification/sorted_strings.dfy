/** Strings in code-point order, and the sorted listing of a set of keys. */
module SortedStrings {

  /** Lexicographic order by code point. */
  predicate Less(s: string, t: string) {
    t != "" && (s == "" || s[0] < t[0] || (s[0] == t[0] && Less(s[1..], t[1..])))
  }

  lemma {:induction false} LessTotal(s: string, t: string)
    ensures Less(s, t) || s == t || Less(t, s)
    ensures !(Less(s, t) && Less(t, s)) && !Less(s, s)
  {
    if s != "" && t != "" {
      LessTotal(s[1..], t[1..]);
      assert s == [s[0]] + s[1..] && t == [t[0]] + t[1..];
    }
    if s != "" {
      LessTotal(s[1..], s[1..]);
    }
  }

  /** The strings agree before `i`; there `s` ends, or has the smaller character. */
  ghost predicate ComesFirstAt(s: string, t: string, i: nat) {
    i <= |s| && i < |t| && s[..i] == t[..i] && (i == |s| || s[i] < t[i])
  }

  /**
   The order at the first place where the strings differ, by code point; a string that ends there
   comes first.
   */
  lemma {:induction false} LessMeans(s: string, t: string)
    ensures Less(s, t) <==> exists i: nat :: ComesFirstAt(s, t, i)
  {
    if s == "" || t == "" {
      assert t != "" ==> ComesFirstAt(s, t, 0);
    } else if s[0] != t[0] {
      assert s[0] < t[0] ==> ComesFirstAt(s, t, 0);
      forall i: nat | ComesFirstAt(s, t, i)
        ensures i == 0
      {
        if i > 0 {
          SameStart(s, t, i);
        }
      }
    } else {
      LessMeans(s[1..], t[1..]);
      forall i: nat | ComesFirstAt(s, t, i)
        ensures i > 0 && ComesFirstAt(s[1..], t[1..], i - 1)
      {
        LaterInTail(s, t, i);
      }
      forall i: nat | ComesFirstAt(s[1..], t[1..], i)
        ensures ComesFirstAt(s, t, i + 1)
      {
        TailIsLater(s, t, i);
      }
    }
  }

  lemma SameStart(s: string, t: string, i: nat)
    requires 0 < i <= |s| && i <= |t| && s[..i] == t[..i]
    ensures s[0] == t[0]
  {
    assert s[0] == s[..i][0];
    assert t[0] == t[..i][0];
  }

  lemma LaterInTail(s: string, t: string, i: nat)
    requires s != "" && t != "" && s[0] == t[0] && ComesFirstAt(s, t, i)
    ensures i > 0 && ComesFirstAt(s[1..], t[1..], i - 1)
  {
    assert s[1..][..i - 1] == s[..i][1..] && t[1..][..i - 1] == t[..i][1..];
  }

  lemma TailIsLater(s: string, t: string, i: nat)
    requires s != "" && t != "" && s[0] == t[0] && ComesFirstAt(s[1..], t[1..], i)
    ensures ComesFirstAt(s, t, i + 1)
  {
    assert s[..i + 1] == [s[0]] + s[1..][..i] && t[..i + 1] == [t[0]] + t[1..][..i];
  }

  lemma {:induction false} LessTransitive(s: string, t: string, u: string)
    requires Less(s, t) && Less(t, u)
    ensures Less(s, u)
  {
    if s != "" && s[0] == t[0] == u[0] {
      LessTransitive(s[1..], t[1..], u[1..]);
    }
  }

  predicate Sorted(keys: seq<string>) {
    forall i, j :: 0 <= i < j < |keys| ==> Less(keys[i], keys[j])
  }

  ghost function KeySet(keys: seq<string>): set<string> {
    set k | k in keys
  }

  lemma NoKeys(a: seq<string>)
    ensures a == [] <==> KeySet(a) == {}
  {
    if a != [] {
      assert a[0] in KeySet(a);
    }
  }

  /** A set has one strictly increasing listing. */
  lemma {:induction false} SortedUnique(a: seq<string>, b: seq<string>)
    requires Sorted(a) && Sorted(b) && KeySet(a) == KeySet(b)
    ensures a == b
  {
    NoKeys(a);
    NoKeys(b);
    if a == [] {
    } else {
      SameHead(a, b);
      TailKeys(a);
      TailKeys(b);
      SortedUnique(a[1..], b[1..]);
      assert a == [a[0]] + a[1..] && b == [b[0]] + b[1..];
    }
  }

  lemma SameHead(a: seq<string>, b: seq<string>)
    requires a != [] && b != [] && Sorted(a) && Sorted(b) && KeySet(a) == KeySet(b)
    ensures a[0] == b[0]
  {
    assert a[0] in KeySet(b) && b[0] in KeySet(a);
    var i :| 0 <= i < |b| && b[i] == a[0];
    var j :| 0 <= j < |a| && a[j] == b[0];
    LessTotal(a[0], b[0]);
  }

  lemma TailKeys(a: seq<string>)
    requires a != [] && Sorted(a)
    ensures Sorted(a[1..]) && KeySet(a[1..]) == KeySet(a) - {a[0]}
  {
    LessTotal(a[0], a[0]);
    forall k | k in KeySet(a) - {a[0]}
      ensures k in KeySet(a[1..])
    {
      var i :| 0 <= i < |a| && a[i] == k;
      assert a[1..][i - 1] == k;
    }
  }

  predicate IsLeast(key: string, keys: set<string>) {
    key in keys && forall k | k in keys :: k == key || Less(key, k)
  }

  lemma {:induction false} LeastExists(keys: set<string>) returns (least: string)
    requires keys != {}
    ensures IsLeast(least, keys)
    ensures forall other :: IsLeast(other, keys) ==> other == least
  {
    var k :| k in keys;
    if keys == {k} {
      least := k;
    } else {
      var rest := LeastExists(keys - {k});
      LessTotal(k, rest);
      least := if Less(k, rest) then k else rest;
      forall j | j in keys
        ensures j == least || Less(least, j)
      {
        if j != k && j != rest && least == k {
          LessTransitive(k, rest, j);
        }
      }
    }
    forall other | IsLeast(other, keys)
      ensures other == least
    {
      LessTotal(other, least);
    }
  }

  lemma HasOneLeast(keys: set<string>)
    requires keys != {}
    ensures exists least :: IsLeast(least, keys)
    ensures forall a, b :: IsLeast(a, keys) && IsLeast(b, keys) ==> a == b
  {
    var least := LeastExists(keys);
  }

  lemma LeastFirst(least: string, keys: set<string>, rest: seq<string>)
    requires IsLeast(least, keys) && Sorted(rest) && KeySet(rest) == keys - {least}
    ensures Sorted([least] + rest) && KeySet([least] + rest) == keys
  {
    var r := [least] + rest;
    forall i, j | 0 <= i < j < |r|
      ensures Less(r[i], r[j])
    {
      assert r[j] == rest[j - 1] && r[j] in KeySet(rest);
    }
    forall k
      ensures k in KeySet(r) <==> k in keys
    {
      assert r[0] == least;
      if k in KeySet(rest) {
        var i :| 0 <= i < |rest| && rest[i] == k;
        assert r[i + 1] == k;
      }
    }
  }

  /** The keys of a dictionary in the order a sorting encoder prints them. */
  function SortedKeys(keys: set<string>): (r: seq<string>)
    ensures Sorted(r) && KeySet(r) == keys && |r| == |keys|
    decreases |keys|
  {
    if keys == {} then
      []
    else
      HasOneLeast(keys);
      var least :| IsLeast(least, keys);
      LeastFirst(least, keys, SortedKeys(keys - {least}));
      [least] + SortedKeys(keys - {least})
  }
}
