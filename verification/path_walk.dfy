/** Walking a group tree back into a flat list of named arrays. */
module PathWalks {
  import opened Wrappers
  import opened SortedStrings
  import opened PathNames
  import opened PathTrees

  datatype Import<A> = Import(name: string, data: A)

  /** The array as it is imported; `None` when its dtype or size is not supported. */
  type Wire<!A> = A -> Option<A>

  // ----- which arrays a walk finds -----

  /** Every object has a group above it, and no name has a slash: what any hierarchical file is. */
  ghost predicate Closed<A>(tree: Tree<A>) {
    forall q, n | q in tree && 0 <= n < |q| :: HasGroup(tree, q[..n]) && SlashFree(q[n])
  }

  /** An importable array below `path`. */
  ghost predicate Wanted<A>(tree: Tree<A>, wire: Wire<A>, path: Path, q: Path) {
    path < q && q in tree && tree[q].ArrayNode? && wire(tree[q].data).Some?
  }

  ghost predicate Found<A>(tree: Tree<A>, wire: Wire<A>, path: Path, q: Path, item: Import<A>) {
    Wanted(tree, wire, path, q) && item == Import(WalkedName(q), wire(tree[q].data).value)
  }

  ghost predicate Distinct(paths: seq<Path>) {
    forall k, l :: 0 <= k < l < |paths| ==> paths[k] != paths[l]
  }

  ghost predicate AllFound<A>(
    tree: Tree<A>, wire: Wire<A>, path: Path, names: set<string>, imports: seq<Import<A>>, paths: seq<Path>)
  {
    && |imports| == |paths|
    && forall k :: 0 <= k < |paths| ==> Found(tree, wire, path, paths[k], imports[k]) && paths[k][|path|] in names
  }

  ghost predicate Complete<A>(tree: Tree<A>, wire: Wire<A>, path: Path, names: set<string>, paths: seq<Path>) {
    forall q | Wanted(tree, wire, path, q) && q[|path|] in names :: q in paths
  }

  /** `imports` lists the importable arrays below `path` whose next component is in `names`, each once. */
  ghost predicate Lists<A>(
    tree: Tree<A>, wire: Wire<A>, path: Path, names: set<string>, imports: seq<Import<A>>, paths: seq<Path>)
  {
    Distinct(paths) && AllFound(tree, wire, path, names, imports, paths) && Complete(tree, wire, path, names, paths)
  }

  function Children<A>(tree: Tree<A>, path: Path): set<string> {
    set q | q in tree && |q| == |path| + 1 && path <= q :: q[|path|]
  }

  lemma ChildOf<A>(tree: Tree<A>, path: Path, q: Path)
    requires Closed(tree) && q in tree && path < q
    ensures path + [q[|path|]] == q[..|path| + 1] && path + [q[|path|]] in tree
    ensures q[|path|] in Children(tree, path)
    ensures path + [q[|path|]] == q || HasGroup(tree, path + [q[|path|]])
  {
    var child := q[..|path| + 1];
    assert child == path + [q[|path|]];
    if |path| + 1 < |q| {
      assert HasGroup(tree, q[..|path| + 1]);
    } else {
      assert child == q;
    }
    assert child[|path|] == q[|path|] && path <= child;
  }

  /** An array child: it is the only candidate under its own name. */
  lemma ArrayChild<A>(
    tree: Tree<A>, wire: Wire<A>, path: Path, names: set<string>, name: string,
    imports: seq<Import<A>>, paths: seq<Path>)
    requires Closed(tree) && Lists(tree, wire, path, names, imports, paths) && name !in names
    requires path + [name] in tree && tree[path + [name]].ArrayNode?
    ensures var child := path + [name];
            if wire(tree[child].data).Some? then
              Lists(tree, wire, path, names + {name},
                    imports + [Import(WalkedName(child), wire(tree[child].data).value)], paths + [child])
            else
              Lists(tree, wire, path, names + {name}, imports, paths)
  {
    var child := path + [name];
    assert child[|path|] == name && path < child;
    forall q | Wanted(tree, wire, path, q) && q[|path|] == name
      ensures q == child
    {
      ChildOf(tree, path, q);
    }
    var now := paths + [child];
    forall q | Wanted(tree, wire, path, q) && q[|path|] in names + {name} && wire(tree[child].data).Some?
      ensures q in now
    {
      if q[|path|] == name {
        assert now[|paths|] == q;
      } else {
        assert q in paths;
      }
    }
  }

  lemma BelowGroup<A>(tree: Tree<A>, wire: Wire<A>, path: Path, name: string, q: Path)
    requires Closed(tree) && HasGroup(tree, path + [name])
    requires Wanted(tree, wire, path, q) && q[|path|] == name
    ensures Wanted(tree, wire, path + [name], q) && q[|path + [name]|] in Children(tree, path + [name])
  {
    var child := path + [name];
    ChildOf(tree, path, q);
    assert child == q[..|child|] && child != q;
    assert child < q;
    ChildOf(tree, child, q);
  }

  lemma AboveGroup<A>(tree: Tree<A>, wire: Wire<A>, path: Path, name: string, q: Path, item: Import<A>)
    requires Found(tree, wire, path + [name], q, item)
    ensures Found(tree, wire, path, q, item) && q[|path|] == name
  {
    var child := path + [name];
    assert q[..|child|] == child;
    assert q[|path|] == child[|path|] == name;
    assert path < child;
  }

  lemma GroupDistinct(path: Path, names: set<string>, name: string, paths: seq<Path>, below: seq<Path>)
    requires Distinct(paths) && Distinct(below) && name !in names
    requires forall k :: 0 <= k < |paths| ==> |path| < |paths[k]| && paths[k][|path|] in names
    requires forall k :: 0 <= k < |below| ==> |path| < |below[k]| && below[k][|path|] == name
    ensures Distinct(paths + below)
  {
  }

  lemma GroupComplete<A>(
    tree: Tree<A>, wire: Wire<A>, path: Path, names: set<string>, name: string, paths: seq<Path>, below: seq<Path>)
    requires Closed(tree) && HasGroup(tree, path + [name])
    requires Complete(tree, wire, path, names, paths)
    requires Complete(tree, wire, path + [name], Children(tree, path + [name]), below)
    ensures Complete(tree, wire, path, names + {name}, paths + below)
  {
    forall q | Wanted(tree, wire, path, q) && q[|path|] in names + {name}
      ensures q in paths + below
    {
      if q[|path|] == name {
        BelowGroup(tree, wire, path, name, q);
        assert q in below;
      } else {
        assert q in paths;
      }
    }
  }

  lemma GroupFound<A>(
    tree: Tree<A>, wire: Wire<A>, path: Path, names: set<string>, name: string,
    imports: seq<Import<A>>, paths: seq<Path>, below: seq<Import<A>>, belowPaths: seq<Path>)
    requires AllFound(tree, wire, path, names, imports, paths)
    requires AllFound(tree, wire, path + [name], Children(tree, path + [name]), below, belowPaths)
    ensures AllFound(tree, wire, path, names + {name}, imports + below, paths + belowPaths)
    ensures forall k :: 0 <= k < |belowPaths| ==> |path| < |belowPaths[k]| && belowPaths[k][|path|] == name
  {
    forall k | 0 <= k < |belowPaths|
      ensures Found(tree, wire, path, belowPaths[k], below[k]) && belowPaths[k][|path|] == name
    {
      AboveGroup(tree, wire, path, name, belowPaths[k], below[k]);
    }
  }

  /** A group child: what lies under its name lies below the child. */
  lemma GroupChild<A>(
    tree: Tree<A>, wire: Wire<A>, path: Path, names: set<string>, name: string,
    imports: seq<Import<A>>, paths: seq<Path>, below: seq<Import<A>>, belowPaths: seq<Path>)
    requires Closed(tree) && Lists(tree, wire, path, names, imports, paths) && name !in names
    requires HasGroup(tree, path + [name])
    requires Lists(tree, wire, path + [name], Children(tree, path + [name]), below, belowPaths)
    ensures Lists(tree, wire, path, names + {name}, imports + below, paths + belowPaths)
  {
    GroupFound(tree, wire, path, names, name, imports, paths, below, belowPaths);
    GroupComplete(tree, wire, path, names, name, paths, belowPaths);
    GroupDistinct(path, names, name, paths, belowPaths);
  }

  // ----- the walk -----

  /** Members in name order. `depth` bounds the tree. */
  method Walk<A>(tree: Tree<A>, wire: Wire<A>, path: Path, prefix: string, ghost depth: nat)
    returns (imports: seq<Import<A>>, ghost paths: seq<Path>)
    requires Closed(tree) && prefix == WalkedName(path) && |path| <= depth
    requires forall q | q in tree :: |q| <= depth
    ensures Lists(tree, wire, path, Children(tree, path), imports, paths)
    decreases depth - |path|, 1
  {
    imports, paths := [], [];
    ghost var done: set<string> := {};
    var names := SortedKeys(Children(tree, path));
    SortedNames(names);
    for i := 0 to |names|
      invariant done == KeySet(names[..i]) && Lists(tree, wire, path, done, imports, paths)
    {
      OneMoreName(names, i);
      imports, paths := WalkChild(tree, wire, path, prefix, names[i], done, imports, paths, depth);
      done := done + {names[i]};
    }
    assert names[..|names|] == names;
  }

  /** One member: an array is listed, a group entered. */
  method WalkChild<A>(
    tree: Tree<A>, wire: Wire<A>, path: Path, prefix: string, name: string, ghost done: set<string>,
    before: seq<Import<A>>, ghost beforePaths: seq<Path>, ghost depth: nat)
    returns (imports: seq<Import<A>>, ghost paths: seq<Path>)
    requires Closed(tree) && prefix == WalkedName(path) && |path| <= depth
    requires forall q | q in tree :: |q| <= depth
    requires name in Children(tree, path) && name !in done
    requires Lists(tree, wire, path, done, before, beforePaths)
    ensures Lists(tree, wire, path, done + {name}, imports, paths)
    decreases depth - |path|, 0
  {
    var child := path + [name];
    MemberIsChild(tree, path, name);
    if tree[child].ArrayNode? {
      imports, paths := ListArray(tree, wire, path, prefix, name, done, before, beforePaths);
      return;
    }
    WalkedStep(path, name);
    ghost var belowPaths;
    var below;
    below, belowPaths := Walk(tree, wire, child, JoinName(prefix, name), depth);
    GroupChild(tree, wire, path, done, name, before, beforePaths, below, belowPaths);
    return before + below, beforePaths + belowPaths;
  }

  /** An array of an importable dtype is listed under its joined name. */
  method ListArray<A>(
    tree: Tree<A>, wire: Wire<A>, path: Path, prefix: string, name: string, ghost done: set<string>,
    before: seq<Import<A>>, ghost beforePaths: seq<Path>)
    returns (imports: seq<Import<A>>, ghost paths: seq<Path>)
    requires Closed(tree) && prefix == WalkedName(path)
    requires name in Children(tree, path) && name !in done
    requires path + [name] in tree && tree[path + [name]].ArrayNode?
    requires Lists(tree, wire, path, done, before, beforePaths)
    ensures Lists(tree, wire, path, done + {name}, imports, paths)
  {
    var child := path + [name];
    WalkedStep(path, name);
    ArrayChild(tree, wire, path, done, name, before, beforePaths);
    var wired := wire(tree[child].data);
    if wired.Some? {
      return before + [Import(JoinName(prefix, name), wired.value)], beforePaths + [child];
    }
    return before, beforePaths;
  }

  // ----- the walk of a format that keeps arrays and groups apart -----

  function Variables<A>(tree: Tree<A>, path: Path): set<string> {
    set q | q in tree && |q| == |path| + 1 && path <= q && tree[q].ArrayNode? :: q[|path|]
  }

  function Groups<A>(tree: Tree<A>, path: Path): set<string> {
    set q | q in tree && |q| == |path| + 1 && path <= q && tree[q].GroupNode? :: q[|path|]
  }

  lemma MemberIsChild<A>(tree: Tree<A>, path: Path, name: string)
    ensures name in Variables(tree, path) <==> path + [name] in tree && tree[path + [name]].ArrayNode?
    ensures name in Groups(tree, path) <==> path + [name] in tree && tree[path + [name]].GroupNode?
    ensures name in Children(tree, path) <==> path + [name] in tree
  {
    var child := path + [name];
    assert path <= child && child[|path|] == name;
    assert forall q | q in tree && |q| == |path| + 1 && path <= q && q[|path|] == name :: q == child;
  }

  lemma VariablesAndGroups<A>(tree: Tree<A>, path: Path)
    ensures Variables(tree, path) + Groups(tree, path) == Children(tree, path)
    ensures Variables(tree, path) !! Groups(tree, path)
  {
    forall name
      ensures name in Children(tree, path) <==> name in Variables(tree, path) + Groups(tree, path)
      ensures !(name in Variables(tree, path) && name in Groups(tree, path))
    {
      MemberIsChild(tree, path, name);
    }
  }

  /** The arrays of a group in name order, then its groups in name order. */
  method WalkNc<A>(tree: Tree<A>, wire: Wire<A>, path: Path, prefix: string, ghost depth: nat)
    returns (imports: seq<Import<A>>, ghost paths: seq<Path>)
    requires Closed(tree) && prefix == WalkedName(path) && |path| <= depth
    requires forall q | q in tree :: |q| <= depth
    ensures Lists(tree, wire, path, Children(tree, path), imports, paths)
    decreases depth - |path|, 2
  {
    imports, paths := WalkVariables(tree, wire, path, prefix);
    VariablesAndGroups(tree, path);
    imports, paths := WalkGroups(tree, wire, path, prefix, Variables(tree, path), imports, paths, depth);
  }

  method WalkGroups<A>(
    tree: Tree<A>, wire: Wire<A>, path: Path, prefix: string, ghost variables: set<string>,
    before: seq<Import<A>>, ghost beforePaths: seq<Path>, ghost depth: nat)
    returns (imports: seq<Import<A>>, ghost paths: seq<Path>)
    requires Closed(tree) && prefix == WalkedName(path) && |path| <= depth
    requires forall q | q in tree :: |q| <= depth
    requires variables !! Groups(tree, path)
    requires Lists(tree, wire, path, variables, before, beforePaths)
    ensures Lists(tree, wire, path, variables + Groups(tree, path), imports, paths)
    decreases depth - |path|, 1
  {
    imports, paths := before, beforePaths;
    var names := SortedKeys(Groups(tree, path));
    SortedNames(names);
    assert Visited(variables, names, 0) == variables;
    for i := 0 to |names|
      invariant Lists(tree, wire, path, Visited(variables, names, i), imports, paths)
    {
      assert names[i] in KeySet(names);
      NextVisited(variables, names, i);
      imports, paths :=
        WalkNcGroup(tree, wire, path, prefix, names[i], Visited(variables, names, i), imports, paths, depth);
    }
    assert names[..|names|] == names;
  }

  ghost function Visited(variables: set<string>, names: seq<string>, i: nat): set<string>
    requires i <= |names|
  {
    variables + KeySet(names[..i])
  }

  lemma NextVisited(variables: set<string>, names: seq<string>, i: nat)
    requires i < |names| && forall j, k :: 0 <= j < k < |names| ==> names[j] != names[k]
    requires variables !! KeySet(names)
    ensures names[i] !in Visited(variables, names, i)
    ensures Visited(variables, names, i + 1) == Visited(variables, names, i) + {names[i]}
  {
    OneMoreName(names, i);
  }

  method WalkVariables<A>(tree: Tree<A>, wire: Wire<A>, path: Path, prefix: string)
    returns (imports: seq<Import<A>>, ghost paths: seq<Path>)
    requires Closed(tree) && prefix == WalkedName(path)
    ensures Lists(tree, wire, path, Variables(tree, path), imports, paths)
  {
    imports, paths := [], [];
    ghost var done: set<string> := {};
    var names := SortedKeys(Variables(tree, path));
    SortedNames(names);
    for i := 0 to |names|
      invariant done == KeySet(names[..i]) && Lists(tree, wire, path, done, imports, paths)
    {
      OneMoreName(names, i);
      MemberIsChild(tree, path, names[i]);
      imports, paths := ListArray(tree, wire, path, prefix, names[i], done, imports, paths);
      done := done + {names[i]};
    }
    assert names[..|names|] == names;
  }

  method WalkNcGroup<A>(
    tree: Tree<A>, wire: Wire<A>, path: Path, prefix: string, name: string, ghost done: set<string>,
    before: seq<Import<A>>, ghost beforePaths: seq<Path>, ghost depth: nat)
    returns (imports: seq<Import<A>>, ghost paths: seq<Path>)
    requires Closed(tree) && prefix == WalkedName(path) && |path| <= depth
    requires forall q | q in tree :: |q| <= depth
    requires name in Groups(tree, path) && name !in done
    requires Lists(tree, wire, path, done, before, beforePaths)
    ensures Lists(tree, wire, path, done + {name}, imports, paths)
    decreases depth - |path|, 0
  {
    var child := path + [name];
    MemberIsChild(tree, path, name);
    WalkedStep(path, name);
    ghost var belowPaths;
    var below;
    below, belowPaths := WalkNc(tree, wire, child, JoinName(prefix, name), depth);
    GroupChild(tree, wire, path, done, name, before, beforePaths, below, belowPaths);
    return before + below, beforePaths + belowPaths;
  }

  lemma SortedNames(names: seq<string>)
    requires Sorted(names)
    ensures forall i, j :: 0 <= i < j < |names| ==> names[i] != names[j]
  {
    forall i, j | 0 <= i < j < |names|
      ensures names[i] != names[j]
    {
      LessTotal(names[i], names[j]);
    }
  }

  lemma OneMoreName(names: seq<string>, i: nat)
    requires i < |names| && forall j, k :: 0 <= j < k < |names| ==> names[j] != names[k]
    ensures names[i] !in KeySet(names[..i])
    ensures KeySet(names[..i + 1]) == KeySet(names[..i]) + {names[i]}
    ensures names[i] in KeySet(names)
  {
    assert names[..i + 1] == names[..i] + [names[i]];
  }

  // ----- the sorted result -----

  /** A dictionary of arrays as a list sorted by name. */
  function ByName<A>(arrays: map<string, A>): (imports: seq<Import<A>>)
    ensures |imports| == |arrays|
  {
    var names := SortedKeys(arrays.Keys);
    NamesAreKeys(arrays);
    seq(|names|, i requires 0 <= i < |names| => Import(names[i], arrays[names[i]]))
  }

  lemma NamesAreKeys<A>(arrays: map<string, A>)
    ensures forall i :: 0 <= i < |SortedKeys(arrays.Keys)| ==> SortedKeys(arrays.Keys)[i] in arrays
  {
    var names := SortedKeys(arrays.Keys);
    assert forall i :: 0 <= i < |names| ==> names[i] in KeySet(names);
  }

  function ToMap<A>(imports: seq<Import<A>>): map<string, A> {
    if imports == [] then map[]
    else ToMap(imports[..|imports| - 1])[imports[|imports| - 1].name := imports[|imports| - 1].data]
  }

  ghost predicate DistinctNames<A>(imports: seq<Import<A>>) {
    forall k, l :: 0 <= k < l < |imports| ==> imports[k].name != imports[l].name
  }

  lemma {:induction false} ToMapHolds<A>(imports: seq<Import<A>>)
    requires DistinctNames(imports)
    ensures forall k :: 0 <= k < |imports| ==>
      imports[k].name in ToMap(imports) && ToMap(imports)[imports[k].name] == imports[k].data
    ensures forall name :: name in ToMap(imports) ==> exists k :: 0 <= k < |imports| && imports[k].name == name
  {
    if imports != [] {
      var n := |imports| - 1;
      ToMapHolds(imports[..n]);
      forall name | name in ToMap(imports)
        ensures exists k :: 0 <= k < |imports| && imports[k].name == name
      {
        if name in ToMap(imports[..n]) {
          var k :| 0 <= k < n && imports[..n][k].name == name;
          assert imports[k].name == name;
        } else {
          assert imports[n].name == name;
        }
      }
      forall k | 0 <= k < |imports|
        ensures imports[k].name in ToMap(imports) && ToMap(imports)[imports[k].name] == imports[k].data
      {
        if k < n {
          assert imports[..n][k] == imports[k];
        }
      }
    }
  }

  /** The names and importable arrays of a list of datasets. */
  function Importable<A>(ds: seq<Dataset<A>>, wire: Wire<A>): map<string, A> {
    if ds == [] then
      map[]
    else
      var d := ds[|ds| - 1];
      var before := Importable(ds[..|ds| - 1], wire);
      if wire(d.data).Some? then before[d.name := wire(d.data).value] else before
  }

  ghost predicate NamesDiffer<A>(ds: seq<Dataset<A>>) {
    forall i, j :: 0 <= i < j < |ds| ==> ds[i].name != ds[j].name
  }

  lemma CompatibleNames<A>(ds: seq<Dataset<A>>)
    requires Compatible(ds)
    ensures NamesDiffer(ds)
  {
    forall i, j | 0 <= i < j < |ds|
      ensures ds[i].name != ds[j].name
    {
      assert !Clash(PathOf(ds[i]), PathOf(ds[j]));
    }
  }

  lemma ImportableHolds<A>(ds: seq<Dataset<A>>, wire: Wire<A>)
    requires Compatible(ds)
    ensures forall i :: 0 <= i < |ds| && wire(ds[i].data).Some? ==>
      ds[i].name in Importable(ds, wire) && Importable(ds, wire)[ds[i].name] == wire(ds[i].data).value
    ensures forall name :: name in Importable(ds, wire) ==>
      exists i :: 0 <= i < |ds| && ds[i].name == name && wire(ds[i].data).Some?
  {
    CompatibleNames(ds);
    ImportableOf(ds, wire);
  }

  lemma {:induction false} ImportableOf<A>(ds: seq<Dataset<A>>, wire: Wire<A>)
    requires NamesDiffer(ds)
    ensures forall i :: 0 <= i < |ds| && wire(ds[i].data).Some? ==>
      ds[i].name in Importable(ds, wire) && Importable(ds, wire)[ds[i].name] == wire(ds[i].data).value
    ensures forall name :: name in Importable(ds, wire) ==>
      exists i :: 0 <= i < |ds| && ds[i].name == name && wire(ds[i].data).Some?
  {
    if ds != [] {
      var n := |ds| - 1;
      ImportableOf(ds[..n], wire);
      forall name | name in Importable(ds, wire)
        ensures exists i :: 0 <= i < |ds| && ds[i].name == name && wire(ds[i].data).Some?
      {
        if name in Importable(ds[..n], wire) {
          var i :| 0 <= i < n && ds[..n][i].name == name && wire(ds[..n][i].data).Some?;
          assert ds[i].name == name && wire(ds[i].data).Some?;
        } else {
          assert ds[n].name == name && wire(ds[n].data).Some?;
        }
      }
      forall i | 0 <= i < |ds| && wire(ds[i].data).Some?
        ensures ds[i].name in Importable(ds, wire)
        ensures Importable(ds, wire)[ds[i].name] == wire(ds[i].data).value
      {
        if i < n {
          assert ds[..n][i] == ds[i];
          assert ds[i].name != ds[n].name;
        }
      }
    }
  }
}
