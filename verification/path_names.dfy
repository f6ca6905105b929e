/** Slash-separated dataset names and the group paths they stand for. */
module PathNames {

  type Path = seq<string>

  predicate SlashFree(s: string) {
    '/' !in s
  }

  /** Position of the first slash, or the length of the string. */
  function FirstSlash(s: string): (i: nat)
    ensures i <= |s| && SlashFree(s[..i])
    ensures i < |s| ==> s[i] == '/'
  {
    if s == "" || s[0] == '/' then 0 else 1 + FirstSlash(s[1..])
  }

  /** One more than the position of the last slash, or 0. */
  function AfterLastSlash(s: string): (i: nat)
    ensures i <= |s| && SlashFree(s[i..])
    ensures i > 0 ==> s[i - 1] == '/'
  {
    if s == "" || s[|s| - 1] == '/' then |s| else AfterLastSlash(s[..|s| - 1])
  }

  /** The components between slashes. */
  function Split(s: string): (parts: Path)
    ensures |parts| > 0 && forall k :: 0 <= k < |parts| ==> SlashFree(parts[k])
  {
    var i := FirstSlash(s);
    if i == |s| then [s] else [s[..i]] + Split(s[i + 1..])
  }

  function Join(parts: Path): string {
    if parts == [] then ""
    else if |parts| == 1 then parts[0]
    else parts[0] + "/" + Join(parts[1..])
  }

  lemma {:induction false} JoinSplit(s: string)
    ensures Join(Split(s)) == s
  {
    var i := FirstSlash(s);
    if i < |s| {
      JoinSplit(s[i + 1..]);
      assert Split(s)[1..] == Split(s[i + 1..]);
      assert s == s[..i] + "/" + s[i + 1..];
    }
  }

  lemma {:induction false} FirstSlashAt(head: string, tail: string)
    requires SlashFree(head)
    ensures FirstSlash(head + "/" + tail) == |head|
  {
    if head != "" {
      assert (head + "/" + tail)[1..] == head[1..] + "/" + tail;
      FirstSlashAt(head[1..], tail);
    }
  }

  lemma {:induction false} NoFirstSlash(s: string)
    requires SlashFree(s)
    ensures FirstSlash(s) == |s|
  {
    if s != "" {
      NoFirstSlash(s[1..]);
    }
  }

  ghost predicate Components(parts: Path) {
    parts != [] && forall k :: 0 <= k < |parts| ==> SlashFree(parts[k])
  }

  lemma SplitHead(head: string, tail: string)
    requires SlashFree(head)
    ensures Split(head + "/" + tail) == [head] + Split(tail)
  {
    var s := head + "/" + tail;
    FirstSlashAt(head, tail);
    assert s[..|head|] == head && s[|head| + 1..] == tail;
  }

  lemma {:induction false} SplitJoin(parts: Path)
    requires Components(parts)
    ensures Split(Join(parts)) == parts
  {
    if |parts| == 1 {
      NoFirstSlash(parts[0]);
    } else {
      SplitHead(parts[0], Join(parts[1..]));
      SplitJoin(parts[1..]);
    }
  }

  lemma {:induction false} JoinAppend(parts: Path, leaf: string)
    requires parts != []
    ensures Join(parts + [leaf]) == Join(parts) + "/" + leaf
  {
    if |parts| == 1 {
      assert (parts + [leaf])[1..] == [leaf];
    } else {
      assert (parts + [leaf])[1..] == parts[1..] + [leaf];
      JoinAppend(parts[1..], leaf);
      assert parts[0] + "/" + (Join(parts[1..]) + "/" + leaf) == parts[0] + "/" + Join(parts[1..]) + "/" + leaf;
    }
  }

  /** Parent key and leaf, cut at the last slash; the parent of a name without a slash is empty. */
  function SplitPath(name: string): (string, string) {
    var i := AfterLastSlash(name);
    if i == 0 then ("", name) else (name[..i - 1], name[i..])
  }

  /** The groups a parent key stands for. */
  function GroupPath(key: string): Path {
    if key == "" then [] else Split(key)
  }

  /** Where a dataset is stored: the groups of its parent key, then its leaf. */
  function StoredPath(name: string): (path: Path)
    ensures Components(path)
  {
    GroupPath(SplitPath(name).0) + [SplitPath(name).1]
  }

  predicate Rooted(name: string) {
    name != "" && name[0] == '/'
  }

  /** A leading slash that is the only slash of the name. */
  predicate LoneSlash(name: string) {
    Rooted(name) && SlashFree(name[1..])
  }

  lemma {:induction false} LastSlashAt(head: string, leaf: string)
    requires SlashFree(leaf)
    ensures AfterLastSlash(head + "/" + leaf) == |head| + 1
  {
    if leaf == "" {
      assert head + "/" + leaf == head + "/";
    } else {
      var n := |leaf| - 1;
      assert (head + "/" + leaf)[..|head| + 1 + n] == head + "/" + leaf[..n];
      LastSlashAt(head, leaf[..n]);
    }
  }

  lemma {:induction false} NoLastSlash(s: string)
    requires SlashFree(s)
    ensures AfterLastSlash(s) == 0
  {
    if s != "" {
      NoLastSlash(s[..|s| - 1]);
    }
  }

  lemma CutAtSlash(key: string, leaf: string)
    requires SlashFree(leaf)
    ensures SplitPath(key + "/" + leaf) == (key, leaf)
  {
    LastSlashAt(key, leaf);
    var name := key + "/" + leaf;
    assert name[..|key|] == key && name[|key| + 1..] == leaf;
  }

  /** Both halves of a name with a slash. */
  lemma CutHalves(name: string)
    requires !SlashFree(name)
    ensures var (key, leaf) := SplitPath(name); name == key + "/" + leaf && SlashFree(leaf)
  {
    assert name[0..] == name;
  }

  /**
   Cutting a name at its last slash and splitting the parent gives its components, and joining
   them gives the name back, except when the only slash is a leading one.
   */
  lemma SplitPathIsSplit(name: string)
    ensures StoredPath(name) == Split(name) <==> !LoneSlash(name)
    ensures Join(StoredPath(name)) == name <==> !LoneSlash(name)
  {
    if SlashFree(name) {
      NoLastSlash(name);
      NoFirstSlash(name);
    } else {
      var (key, leaf) := SplitPath(name);
      CutHalves(name);
      if key == "" {
        assert name == "/" + leaf;
        JoinSplit(name);
      } else {
        assert name[0] == key[0];
        KeepsSlash(key, leaf);
        JoinSplit(key);
        JoinAppend(Split(key), leaf);
        SplitJoin(StoredPath(name));
      }
    }
  }

  lemma KeepsSlash(key: string, leaf: string)
    requires key != ""
    ensures !SlashFree((key + "/" + leaf)[1..])
  {
    assert (key + "/" + leaf)[1..][|key| - 1] == '/';
  }

  /** `prefix/name`, or the name alone under the root. */
  function JoinName(prefix: string, name: string): string {
    if prefix == "" then name else prefix + "/" + name
  }

  /** The name a walk gives to the object at `path`: the components joined on the way down. */
  function WalkedName(path: Path): string {
    if path == [] then "" else JoinName(WalkedName(path[..|path| - 1]), path[|path| - 1])
  }

  lemma WalkedStep(path: Path, name: string)
    ensures WalkedName(path + [name]) == JoinName(WalkedName(path), name)
  {
    assert (path + [name])[..|path|] == path;
  }

  lemma {:induction false} WalkedIsJoin(path: Path)
    requires |path| > 1 ==> path[0] != ""
    ensures WalkedName(path) == Join(path)
    ensures path != [] && path[0] != "" ==> WalkedName(path) != ""
  {
    if |path| > 1 {
      var n := |path| - 1;
      assert path == path[..n] + [path[n]];
      WalkedIsJoin(path[..n]);
      JoinAppend(path[..n], path[n]);
    }
  }

  /** A walk never gives a name with a leading slash. */
  lemma {:induction false} WalkedNotRooted(path: Path)
    requires path != [] ==> Components(path)
    ensures !Rooted(WalkedName(path))
  {
    if path != [] {
      WalkedNotRooted(path[..|path| - 1]);
      assert SlashFree(path[|path| - 1]);
    }
  }

  /** Exactly the names without a leading slash come back from a walk as they were written. */
  lemma ComesBackIffNotRooted(name: string)
    ensures WalkedName(StoredPath(name)) == name <==> !Rooted(name)
    ensures !Rooted(name) ==> StoredPath(name) == Split(name) && (|Split(name)| > 1 ==> Split(name)[0] != "")
  {
    if Rooted(name) {
      WalkedNotRooted(StoredPath(name));
    } else {
      SplitPathIsSplit(name);
      JoinSplit(name);
      WalkedIsJoin(Split(name));
    }
  }

  lemma JoinInjective(a: Path, b: Path)
    requires Components(a) && Components(b) && Join(a) == Join(b)
    ensures a == b
  {
    SplitJoin(a);
    SplitJoin(b);
  }

  /** A leading slash is dropped already when the name is stored if and only if it is the only slash. */
  lemma LeadingSlashIsLost(name: string)
    ensures StoredPath("/" + name) == StoredPath(name) <==> SlashFree(name)
  {
    var rooted := "/" + name;
    assert rooted[1..] == name;
    SplitPathIsSplit(rooted);
    SplitPathIsSplit(name);
    SplitHead("", name);
    assert "" + "/" + name == rooted;
    if SlashFree(name) {
      CutAtSlash("", name);
      NoLastSlash(name);
    } else if LoneSlash(name) {
      LoneSlashPath(name);
    }
  }

  lemma LoneSlashPath(name: string)
    requires LoneSlash(name)
    ensures StoredPath(name) == [name[1..]] && |Split(name)| == 2
  {
    assert name == "" + "/" + name[1..];
    CutAtSlash("", name[1..]);
    SplitHead("", name[1..]);
    NoFirstSlash(name[1..]);
  }

  // ----- which names stand in each other's way -----

  /** The name a dataset is stored under: a leading slash that is the only one is dropped. */
  function StoredName(name: string): string {
    if LoneSlash(name) then name[1..] else name
  }

  lemma StoredPathOfName(name: string)
    ensures StoredPath(name) == Split(StoredName(name))
  {
    SplitPathIsSplit(name);
    if LoneSlash(name) {
      LoneSlashPath(name);
      NoFirstSlash(name[1..]);
    }
  }

  lemma {:induction false} JoinConcat(a: Path, b: Path)
    requires a != [] && b != []
    ensures Join(a + b) == Join(a) + "/" + Join(b)
  {
    if |a| == 1 {
      assert (a + b)[1..] == b;
    } else {
      assert (a + b)[1..] == a[1..] + b;
      JoinConcat(a[1..], b);
      assert a[0] + "/" + (Join(a[1..]) + "/" + Join(b)) == a[0] + "/" + Join(a[1..]) + "/" + Join(b);
    }
  }

  lemma SplitConcat(a: string, b: string)
    ensures Split(a + "/" + b) == Split(a) + Split(b)
  {
    JoinSplit(a);
    JoinSplit(b);
    JoinConcat(Split(a), Split(b));
    SplitJoin(Split(a) + Split(b));
  }

  lemma NameFromPath(a: string, b: string, rest: Path)
    requires Split(b) == Split(a) + rest
    ensures rest == [] ==> a == b
    ensures rest != [] ==> b == a + "/" + Join(rest)
  {
    JoinSplit(a);
    JoinSplit(b);
    if rest != [] {
      JoinConcat(Split(a), rest);
    }
  }

  /** One path is the other or lies above it exactly when the names do, up to a slash. */
  lemma AboveByName(a: string, b: string)
    ensures Split(a) <= Split(b) <==> a == b || a + "/" <= b
  {
    if Split(a) <= Split(b) {
      NameFromPath(a, b, Split(b)[|Split(a)|..]);
    }
    if a + "/" <= b {
      assert b == a + "/" + b[|a + "/"|..];
      SplitConcat(a, b[|a + "/"|..]);
    }
  }
}
