/** Writing datasets into a group tree. */
module PathTrees {
  import opened PathNames

  datatype Dataset<A> = Dataset(name: string, data: A)

  /** An object of a hierarchical file, stored under its path from the root. */
  datatype Node<A> = GroupNode | ArrayNode(data: A)

  type Tree<A> = map<Path, Node<A>>

  function PathOf<A>(d: Dataset<A>): (path: Path)
    ensures Components(path)
  {
    StoredPath(d.name)
  }

  // ----- the tree a list of datasets stands for -----

  ghost predicate HasArray<A>(tree: Tree<A>, d: Dataset<A>) {
    PathOf(d) in tree && tree[PathOf(d)] == ArrayNode(d.data)
  }

  ghost predicate HasGroup<A>(tree: Tree<A>, path: Path) {
    path in tree && tree[path] == GroupNode
  }

  /** Every group above the dataset exists. */
  ghost predicate HasParents<A>(tree: Tree<A>, d: Dataset<A>) {
    forall n :: 0 <= n < |PathOf(d)| ==> HasGroup(tree, PathOf(d)[..n])
  }

  ghost predicate IsDatasetPath<A>(ds: seq<Dataset<A>>, path: Path) {
    exists i :: 0 <= i < |ds| && PathOf(ds[i]) == path
  }

  ghost predicate IsGroupPath<A>(ds: seq<Dataset<A>>, path: Path) {
    path == [] || exists i :: 0 <= i < |ds| && path < PathOf(ds[i])
  }

  ghost predicate InPlace<A>(tree: Tree<A>, d: Dataset<A>) {
    HasArray(tree, d) && HasParents(tree, d)
  }

  /** The object at `path` is one of the datasets or a group above one. */
  ghost predicate Accounted<A>(tree: Tree<A>, ds: seq<Dataset<A>>, path: Path)
    requires path in tree
  {
    if tree[path].ArrayNode? then IsDatasetPath(ds, path) else IsGroupPath(ds, path)
  }

  /** `tree` holds the datasets, the groups above them, and nothing else. */
  ghost predicate Holds<A>(tree: Tree<A>, ds: seq<Dataset<A>>) {
    && HasGroup(tree, [])
    && (forall i {:trigger InPlace(tree, ds[i])} | 0 <= i < |ds| :: InPlace(tree, ds[i]))
    && (forall path {:trigger Accounted(tree, ds, path)} | path in tree :: Accounted(tree, ds, path))
  }

  /** One path is the other or lies above it. */
  ghost predicate Clash(a: Path, b: Path) {
    a <= b || b <= a
  }

  ghost predicate Fits<A>(ds: seq<Dataset<A>>, d: Dataset<A>) {
    forall i :: 0 <= i < |ds| ==> !Clash(PathOf(ds[i]), PathOf(d))
  }

  /** No dataset is stored at or above the place of another. */
  ghost predicate Compatible<A>(ds: seq<Dataset<A>>) {
    forall i, j :: 0 <= i < j < |ds| ==> !Clash(PathOf(ds[i]), PathOf(ds[j]))
  }

  ghost predicate IsArray<A>(tree: Tree<A>, path: Path) {
    path in tree && tree[path].ArrayNode?
  }

  /** Something already in the tree is in the way of an array at `path`. */
  ghost predicate Blocked<A>(tree: Tree<A>, path: Path) {
    path in tree || exists n :: 0 <= n < |path| && IsArray(tree, path[..n])
  }

  lemma BlockedIffClash<A>(tree: Tree<A>, ds: seq<Dataset<A>>, d: Dataset<A>)
    requires Holds(tree, ds)
    ensures Blocked(tree, PathOf(d)) <==> !Fits(ds, d)
  {
    var path := PathOf(d);
    if Blocked(tree, path) && path !in tree {
      var n :| 0 <= n < |path| && IsArray(tree, path[..n]);
      assert Accounted(tree, ds, path[..n]);
      var i :| 0 <= i < |ds| && PathOf(ds[i]) == path[..n];
      assert Clash(PathOf(ds[i]), path);
    }
    if path in tree {
      assert Accounted(tree, ds, path);
      var i :| 0 <= i < |ds| && path <= PathOf(ds[i]);
      assert Clash(PathOf(ds[i]), path);
    }
    if !Fits(ds, d) {
      var i :| 0 <= i < |ds| && Clash(PathOf(ds[i]), path);
      ClashBlocks(tree, ds, d, i);
    }
  }

  lemma ClashBlocks<A>(tree: Tree<A>, ds: seq<Dataset<A>>, d: Dataset<A>, i: nat)
    requires Holds(tree, ds) && i < |ds| && Clash(PathOf(ds[i]), PathOf(d))
    ensures Blocked(tree, PathOf(d))
  {
    var path, other := PathOf(d), PathOf(ds[i]);
    assert InPlace(tree, ds[i]);
    if path <= other && |path| < |other| {
      assert path == other[..|path|];
      assert HasGroup(tree, other[..|path|]);
    } else if other <= path && |other| < |path| {
      assert path[..|other|] == other;
    } else {
      assert path == other;
    }
  }

  /** `after` is `before` with the array at its path and the groups above it. */
  ghost predicate Added<A>(before: Tree<A>, after: Tree<A>, d: Dataset<A>) {
    && (forall path | path in before :: path in after && after[path] == before[path])
    && InPlace(after, d)
    && (forall path | path in after && path !in before ::
          if after[path].ArrayNode? then path == PathOf(d) else path < PathOf(d))
  }

  lemma AddedHolds<A>(before: Tree<A>, after: Tree<A>, ds: seq<Dataset<A>>, d: Dataset<A>)
    requires Holds(before, ds) && Added(before, after, d)
    ensures Holds(after, ds + [d])
  {
    var now := ds + [d];
    forall i | 0 <= i < |now|
      ensures InPlace(after, now[i])
    {
      if i < |ds| {
        assert InPlace(before, ds[i]);
      }
    }
    forall path | path in after
      ensures Accounted(after, now, path)
    {
      PathKinds(before, ds, d, path);
      assert now[|ds|] == d;
    }
  }

  lemma PathKinds<A>(before: Tree<A>, ds: seq<Dataset<A>>, d: Dataset<A>, path: Path)
    requires Holds(before, ds)
    ensures path in before && before[path].ArrayNode? ==> IsDatasetPath(ds + [d], path)
    ensures path in before && before[path].GroupNode? ==> IsGroupPath(ds + [d], path)
  {
    var now := ds + [d];
    assert forall i :: 0 <= i < |ds| ==> now[i] == ds[i];
    assert path in before ==> Accounted(before, ds, path);
    if path in before && before[path].ArrayNode? {
      var i :| 0 <= i < |ds| && PathOf(ds[i]) == path;
      assert PathOf(now[i]) == path;
    } else if path in before && path != [] {
      var i :| 0 <= i < |ds| && path < PathOf(ds[i]);
      assert path < PathOf(now[i]);
    }
  }

  // ----- writing -----

  /** `parts` and the groups above it have been added to `before`. */
  ghost predicate GroupsAdded<A>(before: Tree<A>, after: Tree<A>, parts: Path) {
    && (forall path | path in before :: path in after && after[path] == before[path])
    && (forall n :: 0 <= n <= |parts| ==> HasGroup(after, parts[..n]))
    && (forall path | path in after && path !in before :: after[path] == GroupNode && path <= parts)
  }

  /** The groups of the first `n` parts have been added and nothing else. */
  ghost predicate StoppedAt<A>(before: Tree<A>, after: Tree<A>, parts: Path, n: nat) {
    n <= |parts| && GroupsAdded(before, after, parts[..n])
  }

  class GroupFile<A> {
    var tree: Tree<A>

    constructor ()
      ensures Holds(tree, [])
    {
      tree := map[[] := GroupNode];
    }

    /** Open or create the groups along `parts`; the first array in the way is an error. */
    method EnsureGroup(parts: Path) returns (ok: bool)
      requires HasGroup(tree, [])
      modifies this
      ensures ok <==> forall n :: 0 <= n <= |parts| ==> !IsArray(old(tree), parts[..n])
      ensures ok ==> GroupsAdded(old(tree), tree, parts)
      ensures !ok ==> exists n: nat :: n < |parts| && IsArray(old(tree), parts[..n + 1]) && StoppedAt(old(tree), tree, parts, n)
    {
      assert parts[..0] == [];
      for i := 0 to |parts|
        invariant GroupsAdded(old(tree), tree, parts[..i])
        invariant forall n :: 0 <= n <= i ==> !IsArray(old(tree), parts[..n])
      {
        var child := parts[..i] + [parts[i]];
        assert child == parts[..i + 1];
        ghost var before := tree;
        if child in tree {
          if tree[child].ArrayNode? {
            assert IsArray(old(tree), parts[..i + 1]) && StoppedAt(old(tree), tree, parts, i);
            return false;
          }
        } else {
          tree := tree[child := GroupNode];
        }
        GroupsStep(old(tree), before, tree, parts, i);
      }
      assert parts[..|parts|] == parts;
      return true;
    }

    /** Write one dataset into its group, which has been opened; `start` is the tree before that. */
    method WriteArray(groups: Path, leaf: string, d: Dataset<A>, ghost start: Tree<A>) returns (ok: bool)
      requires PathOf(d) == groups + [leaf] && GroupsAdded(start, tree, groups)
      modifies this
      ensures ok <==> PathOf(d) !in start
      ensures ok ==> Added(start, tree, d)
      ensures !ok ==> tree == old(tree)
    {
      var path := groups + [leaf];
      assert !(path <= groups);
      if path in tree {
        return false;
      }
      ghost var between := tree;
      tree := tree[path := ArrayNode(d.data)];
      ArrayStep(start, between, tree, groups, leaf, d);
      return true;
    }

    /**
     Write one dataset under the groups of its name. A failed call leaves some of those groups
     behind and nothing else.
     */
    method CreateArray(d: Dataset<A>) returns (ok: bool)
      requires HasGroup(tree, [])
      modifies this
      ensures ok <==> !Blocked(old(tree), PathOf(d))
      ensures ok ==> Added(old(tree), tree, d)
      ensures !ok ==> exists n: nat :: n < |PathOf(d)| && StoppedAt(old(tree), tree, PathOf(d), n)
    {
      var (key, leaf) := SplitPath(d.name);
      var groups := GroupPath(key);
      var isOpen := EnsureGroup(groups);
      BlockedAt(old(tree), groups, leaf);
      ghost var path := PathOf(d);
      assert forall n :: 0 <= n <= |groups| ==> groups[..n] == path[..n];
      if !isOpen {
        ghost var n: nat :| n < |groups| && IsArray(old(tree), groups[..n + 1]) && StoppedAt(old(tree), tree, groups, n);
        assert StoppedAt(old(tree), tree, path, n);
        return false;
      }
      ok := WriteArray(groups, leaf, d, old(tree));
      assert !ok ==> StoppedAt(old(tree), tree, path, |groups|);
    }
  }

  lemma GroupsStep<A>(start: Tree<A>, before: Tree<A>, after: Tree<A>, parts: Path, i: nat)
    requires i < |parts| && GroupsAdded(start, before, parts[..i])
    requires HasGroup(after, parts[..i + 1])
    requires after == before || (parts[..i + 1] !in before && after == before[parts[..i + 1] := GroupNode])
    ensures GroupsAdded(start, after, parts[..i + 1])
  {
    var now := parts[..i + 1];
    forall n | 0 <= n <= |now|
      ensures HasGroup(after, now[..n])
    {
      if n <= i {
        assert now[..n] == parts[..i][..n];
        assert HasGroup(before, parts[..i][..n]);
      } else {
        assert now[..n] == now;
      }
    }
    assert parts[..i] <= now;
  }

  lemma BlockedAt<A>(tree: Tree<A>, groups: Path, leaf: string)
    ensures Blocked(tree, groups + [leaf])
       <==> groups + [leaf] in tree
            || exists n :: 0 <= n <= |groups| && IsArray(tree, groups[..n])
  {
    var path := groups + [leaf];
    assert forall n :: 0 <= n <= |groups| ==> path[..n] == groups[..n];
  }

  lemma ArrayStep<A>(start: Tree<A>, between: Tree<A>, after: Tree<A>, groups: Path, leaf: string, d: Dataset<A>)
    requires GroupsAdded(start, between, groups) && PathOf(d) == groups + [leaf]
    requires PathOf(d) !in between && after == between[PathOf(d) := ArrayNode(d.data)]
    ensures Added(start, after, d)
  {
    forall n | 0 <= n < |PathOf(d)|
      ensures HasGroup(after, PathOf(d)[..n])
    {
      assert PathOf(d)[..n] == groups[..n];
      assert HasGroup(between, groups[..n]);
    }
  }
}
