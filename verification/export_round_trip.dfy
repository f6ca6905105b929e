/** Export a list of datasets to a group tree, convert the tree back, and get the list back. */
module ExportRoundTrip {
  import opened Wrappers
  import opened SortedStrings
  import opened Reorderings
  import opened PathNames
  import opened PathTrees
  import opened PathWalks
  import opened PathSorting

  /** No two of the first `n` datasets are in each other's way. */
  ghost predicate CompatibleUpTo<A>(ds: seq<Dataset<A>>, n: nat)
    requires n <= |ds|
  {
    forall i, j :: 0 <= i < j < n ==> !Clash(PathOf(ds[i]), PathOf(ds[j]))
  }

  lemma FitsPrefix<A>(ds: seq<Dataset<A>>, n: nat)
    requires n < |ds|
    ensures Fits(ds[..n], ds[n]) <==> forall i :: 0 <= i < n ==> !Clash(PathOf(ds[i]), PathOf(ds[n]))
  {
    if Fits(ds[..n], ds[n]) {
      forall i | 0 <= i < n
        ensures !Clash(PathOf(ds[i]), PathOf(ds[n]))
      {
        assert ds[..n][i] == ds[i];
      }
    }
  }

  lemma CompatiblePrefix<A>(ds: seq<Dataset<A>>, n: nat)
    requires n <= |ds| && Compatible(ds)
    ensures Compatible(ds[..n])
  {
    forall i, j | 0 <= i < j < n
      ensures !Clash(PathOf(ds[..n][i]), PathOf(ds[..n][j]))
    {
      assert ds[..n][i] == ds[i] && ds[..n][j] == ds[j];
    }
  }

  /** The first `n` datasets have been written, and none is in another's way. */
  ghost predicate Written<A>(tree: Tree<A>, ds: seq<Dataset<A>>, n: nat)
    requires n <= |ds|
  {
    Holds(tree, ds[..n]) && CompatibleUpTo(ds, n)
  }

  lemma BlockedIffIncompatible<A>(tree: Tree<A>, ds: seq<Dataset<A>>, n: nat)
    requires n < |ds| && Written(tree, ds, n)
    ensures Blocked(tree, PathOf(ds[n])) <==> !CompatibleUpTo(ds, n + 1)
    ensures Blocked(tree, PathOf(ds[n])) ==> !Compatible(ds)
  {
    BlockedIffClash(tree, ds[..n], ds[n]);
    FitsPrefix(ds, n);
  }

  lemma NextPrefix<T>(list: seq<T>, n: nat)
    requires n < |list|
    ensures list[..n + 1] == list[..n] + [list[n]]
  {
  }

  lemma NowHolds<A>(before: Tree<A>, after: Tree<A>, ds: seq<Dataset<A>>, d: Dataset<A>, now: seq<Dataset<A>>)
    requires Holds(before, ds) && Added(before, after, d) && now == ds + [d]
    ensures Holds(after, now)
  {
    AddedHolds(before, after, ds, d);
  }

  lemma WrittenStep<A>(before: Tree<A>, after: Tree<A>, ds: seq<Dataset<A>>, n: nat)
    requires n < |ds| && Written(before, ds, n)
    requires CompatibleUpTo(ds, n + 1) && Added(before, after, ds[n])
    ensures Written(after, ds, n + 1)
  {
    NextPrefix(ds, n);
    NowHolds(before, after, ds[..n], ds[n], ds[..n + 1]);
  }

  /** Write every dataset in turn. It succeeds exactly when no name lies on another's path. */
  method Export<A>(ds: seq<Dataset<A>>) returns (r: Option<Tree<A>>)
    ensures r.Some? <==> Compatible(ds)
    ensures r.Some? ==> Holds(r.value, ds)
  {
    var file := new GroupFile<A>();
    for n := 0 to |ds|
      invariant fresh(file) && Written(file.tree, ds, n)
    {
      ghost var before := file.tree;
      BlockedIffIncompatible(before, ds, n);
      var ok := file.CreateArray(ds[n]);
      if !ok {
        return None;
      }
      WrittenStep(before, file.tree, ds, n);
    }
    assert ds[..|ds|] == ds;
    return Some(file.tree);
  }

  lemma PathIsClosed<A>(tree: Tree<A>, ds: seq<Dataset<A>>, i: nat, q: Path, n: nat)
    requires Holds(tree, ds) && i < |ds| && q <= PathOf(ds[i]) && n < |q|
    ensures HasGroup(tree, q[..n]) && SlashFree(q[n])
  {
    assert InPlace(tree, ds[i]);
    assert q[..n] == PathOf(ds[i])[..n] && q[n] == PathOf(ds[i])[n];
    assert HasGroup(tree, PathOf(ds[i])[..n]);
  }

  lemma HoldsIsClosed<A>(tree: Tree<A>, ds: seq<Dataset<A>>)
    requires Holds(tree, ds)
    ensures Closed(tree)
  {
    forall q, n | q in tree && 0 <= n < |q|
      ensures HasGroup(tree, q[..n]) && SlashFree(q[n])
    {
      assert Accounted(tree, ds, q);
      var i :| 0 <= i < |ds| && q <= PathOf(ds[i]);
      PathIsClosed(tree, ds, i, q, n);
    }
  }

  lemma {:induction false} Depth(paths: set<Path>) returns (depth: nat)
    ensures forall q | q in paths :: |q| <= depth
  {
    if paths == {} {
      depth := 0;
    } else {
      var q :| q in paths;
      var rest := Depth(paths - {q});
      depth := if rest < |q| then |q| else rest;
    }
  }

  // ----- loading any file -----

  /** No importable array lies below a group of the root with an empty name. */
  ghost predicate Unambiguous<A>(tree: Tree<A>, wire: Wire<A>) {
    forall q | Wanted(tree, wire, [], q) && |q| > 1 :: q[0] != ""
  }

  lemma NamesDistinct<A>(tree: Tree<A>, wire: Wire<A>, imports: seq<PathWalks.Import<A>>, paths: seq<Path>)
    requires Closed(tree) && Unambiguous(tree, wire)
    requires Lists(tree, wire, [], Children(tree, []), imports, paths)
    ensures DistinctNames(imports)
  {
    forall k, l | 0 <= k < l < |imports|
      ensures imports[k].name != imports[l].name
    {
      assert Found(tree, wire, [], paths[k], imports[k]) && Found(tree, wire, [], paths[l], imports[l]);
      WalkedIsJoin(paths[k]);
      WalkedIsJoin(paths[l]);
      assert Components(paths[k]) && Components(paths[l]);
      if imports[k].name == imports[l].name {
        JoinInjective(paths[k], paths[l]);
      }
    }
  }

  /** No walk lists a name with a leading slash. */
  lemma NoneRooted<A>(tree: Tree<A>, wire: Wire<A>, imports: seq<PathWalks.Import<A>>, paths: seq<Path>)
    requires Closed(tree) && Lists(tree, wire, [], Children(tree, []), imports, paths)
    ensures forall k :: 0 <= k < |imports| ==> !Rooted(imports[k].name)
  {
    forall k | 0 <= k < |imports|
      ensures !Rooted(imports[k].name)
    {
      assert Found(tree, wire, [], paths[k], imports[k]);
      assert Components(paths[k]);
      WalkedNotRooted(paths[k]);
    }
  }

  /** What loading a file gives: its importable arrays, each once, sorted by the name of its path. */
  ghost predicate LoadsAs<A>(
    tree: Tree<A>, wire: Wire<A>, imports: seq<PathWalks.Import<A>>, listed: seq<PathWalks.Import<A>>, paths: seq<Path>)
  {
    && Lists(tree, wire, [], Children(tree, []), listed, paths)
    && multiset(imports) == multiset(listed)
    && NonDecreasing(imports)
    && (Unambiguous(tree, wire) ==> imports == ByName(ToMap(listed)))
  }

  lemma SortedLoads<A>(tree: Tree<A>, wire: Wire<A>, listed: seq<PathWalks.Import<A>>, paths: seq<Path>)
    requires Closed(tree) && Lists(tree, wire, [], Children(tree, []), listed, paths)
    ensures LoadsAs(tree, wire, SortByName(listed), listed, paths)
  {
    SortSorts(listed);
    if Unambiguous(tree, wire) {
      NamesDistinct(tree, wire, listed, paths);
      SortIsByName(listed);
    }
  }

  /** Walk a file from its root and sort what was found by name. */
  method Load<A>(tree: Tree<A>, wire: Wire<A>)
    returns (imports: seq<PathWalks.Import<A>>, ghost listed: seq<PathWalks.Import<A>>, ghost paths: seq<Path>)
    requires Closed(tree)
    ensures LoadsAs(tree, wire, imports, listed, paths)
  {
    ghost var depth := Depth(tree.Keys);
    imports, paths := Walk(tree, wire, [], "", depth);
    listed := imports;
    SortedLoads(tree, wire, listed, paths);
    imports := SortByName(imports);
  }

  /** The same for a walk that takes the arrays of a group before its groups. */
  method LoadNetcdf<A>(tree: Tree<A>, wire: Wire<A>)
    returns (imports: seq<PathWalks.Import<A>>, ghost listed: seq<PathWalks.Import<A>>, ghost paths: seq<Path>)
    requires Closed(tree)
    ensures LoadsAs(tree, wire, imports, listed, paths)
  {
    ghost var depth := Depth(tree.Keys);
    imports, paths := WalkNc(tree, wire, [], "", depth);
    listed := imports;
    SortedLoads(tree, wire, listed, paths);
    imports := SortByName(imports);
  }

  // ----- the round trip -----

  /** No importable dataset has a name with a leading slash. */
  ghost predicate NamesKept<A>(ds: seq<Dataset<A>>, wire: Wire<A>) {
    forall i :: 0 <= i < |ds| && wire(ds[i].data).Some? ==> !Rooted(ds[i].name)
  }

  /** Where an importable array of the tree comes from. */
  lemma ArrayIsDataset<A>(tree: Tree<A>, wire: Wire<A>, ds: seq<Dataset<A>>, q: Path) returns (i: nat)
    requires Holds(tree, ds) && Wanted(tree, wire, [], q)
    ensures i < |ds| && PathOf(ds[i]) == q && tree[q].data == ds[i].data
  {
    assert Accounted(tree, ds, q);
    i :| 0 <= i < |ds| && PathOf(ds[i]) == q;
    assert InPlace(tree, ds[i]);
  }

  lemma KeptIsUnambiguous<A>(tree: Tree<A>, wire: Wire<A>, ds: seq<Dataset<A>>)
    requires Holds(tree, ds) && NamesKept(ds, wire)
    ensures Unambiguous(tree, wire)
  {
    forall q | Wanted(tree, wire, [], q) && |q| > 1
      ensures q[0] != ""
    {
      var i := ArrayIsDataset(tree, wire, ds, q);
      ComesBackIffNotRooted(ds[i].name);
    }
  }

  /** An importable dataset is found by the walk, under its own name. */
  lemma DatasetIsFound<A>(
    tree: Tree<A>, wire: Wire<A>, ds: seq<Dataset<A>>, i: nat, imports: seq<PathWalks.Import<A>>, paths: seq<Path>)
    returns (k: nat)
    requires Holds(tree, ds) && Closed(tree) && Lists(tree, wire, [], Children(tree, []), imports, paths)
    requires i < |ds| && wire(ds[i].data).Some? && !Rooted(ds[i].name)
    ensures k < |imports| && imports[k] == PathWalks.Import(ds[i].name, wire(ds[i].data).value)
  {
    var q := PathOf(ds[i]);
    assert InPlace(tree, ds[i]);
    ChildOf(tree, [], q);
    assert Wanted(tree, wire, [], q);
    assert q in paths;
    k :| 0 <= k < |paths| && paths[k] == q;
    assert Found(tree, wire, [], paths[k], imports[k]);
    ComesBackIffNotRooted(ds[i].name);
  }

  /** Everything the walk finds is an importable dataset. */
  lemma FoundIsDataset<A>(
    tree: Tree<A>, wire: Wire<A>, ds: seq<Dataset<A>>, imports: seq<PathWalks.Import<A>>, paths: seq<Path>, k: nat)
    returns (i: nat)
    requires Holds(tree, ds) && Lists(tree, wire, [], Children(tree, []), imports, paths) && k < |imports|
    requires NamesKept(ds, wire)
    ensures i < |ds| && wire(ds[i].data).Some? && imports[k].name == ds[i].name
  {
    assert Found(tree, wire, [], paths[k], imports[k]);
    i := ArrayIsDataset(tree, wire, ds, paths[k]);
    ComesBackIffNotRooted(ds[i].name);
  }

  lemma ExpectedIsFound<A>(
    tree: Tree<A>, wire: Wire<A>, ds: seq<Dataset<A>>, imports: seq<PathWalks.Import<A>>, paths: seq<Path>,
    name: string)
    requires Holds(tree, ds) && Compatible(ds) && Closed(tree) && DistinctNames(imports) && NamesKept(ds, wire)
    requires Lists(tree, wire, [], Children(tree, []), imports, paths)
    requires name in Importable(ds, wire)
    ensures name in ToMap(imports) && ToMap(imports)[name] == Importable(ds, wire)[name]
  {
    ImportableHolds(ds, wire);
    var i :| 0 <= i < |ds| && ds[i].name == name && wire(ds[i].data).Some?;
    var k := DatasetIsFound(tree, wire, ds, i, imports, paths);
    ToMapHolds(imports);
  }

  lemma FoundIsExpected<A>(
    tree: Tree<A>, wire: Wire<A>, ds: seq<Dataset<A>>, imports: seq<PathWalks.Import<A>>, paths: seq<Path>,
    name: string)
    requires Holds(tree, ds) && Compatible(ds) && DistinctNames(imports) && NamesKept(ds, wire)
    requires Lists(tree, wire, [], Children(tree, []), imports, paths)
    requires name in ToMap(imports)
    ensures name in Importable(ds, wire)
  {
    ToMapHolds(imports);
    var k :| 0 <= k < |imports| && imports[k].name == name;
    var i := FoundIsDataset(tree, wire, ds, imports, paths, k);
    ImportableHolds(ds, wire);
  }

  lemma WalkFindsDatasets<A>(
    tree: Tree<A>, wire: Wire<A>, ds: seq<Dataset<A>>, imports: seq<PathWalks.Import<A>>, paths: seq<Path>)
    requires Holds(tree, ds) && Compatible(ds) && Closed(tree) && NamesKept(ds, wire)
    requires Lists(tree, wire, [], Children(tree, []), imports, paths)
    ensures ToMap(imports) == Importable(ds, wire)
  {
    KeptIsUnambiguous(tree, wire, ds);
    NamesDistinct(tree, wire, imports, paths);
    forall name
      ensures name in ToMap(imports) <==> name in Importable(ds, wire)
      ensures name in ToMap(imports) ==> ToMap(imports)[name] == Importable(ds, wire)[name]
    {
      if name in ToMap(imports) {
        FoundIsExpected(tree, wire, ds, imports, paths, name);
      }
      if name in Importable(ds, wire) {
        ExpectedIsFound(tree, wire, ds, imports, paths, name);
      }
    }
  }

  /** A dataset whose name starts with a slash does not come back under that name. */
  lemma RootedDoesNotReturn<A>(
    tree: Tree<A>, wire: Wire<A>, ds: seq<Dataset<A>>, imports: seq<PathWalks.Import<A>>,
    listed: seq<PathWalks.Import<A>>, paths: seq<Path>, i: nat)
    requires Compatible(ds) && Closed(tree) && LoadsAs(tree, wire, imports, listed, paths)
    requires i < |ds| && wire(ds[i].data).Some? && Rooted(ds[i].name)
    ensures imports != ByName(Importable(ds, wire))
  {
    NoneRooted(tree, wire, listed, paths);
    SortedNotRooted(imports, listed);
    ImportableHolds(ds, wire);
    var k := NameIsListed(Importable(ds, wire), ds[i].name);
  }

  lemma SortedNotRooted<A>(imports: seq<PathWalks.Import<A>>, listed: seq<PathWalks.Import<A>>)
    requires multiset(imports) == multiset(listed)
    requires forall k :: 0 <= k < |listed| ==> !Rooted(listed[k].name)
    ensures forall k :: 0 <= k < |imports| ==> !Rooted(imports[k].name)
  {
    forall k | 0 <= k < |imports|
      ensures !Rooted(imports[k].name)
    {
      assert imports[k] in multiset(listed);
    }
  }

  lemma NameIsListed<A>(arrays: map<string, A>, name: string) returns (k: nat)
    requires name in arrays
    ensures k < |ByName(arrays)| && ByName(arrays)[k].name == name
  {
    var names := SortedKeys(arrays.Keys);
    assert name in KeySet(names);
    k :| 0 <= k < |names| && names[k] == name;
  }

  /** Loading what was exported gives the datasets back exactly when no name starts with a slash. */
  lemma LoadOfExport<A>(
    tree: Tree<A>, wire: Wire<A>, ds: seq<Dataset<A>>, imports: seq<PathWalks.Import<A>>,
    listed: seq<PathWalks.Import<A>>, paths: seq<Path>)
    requires Holds(tree, ds) && Compatible(ds) && LoadsAs(tree, wire, imports, listed, paths)
    ensures imports == ByName(Importable(ds, wire)) <==> NamesKept(ds, wire)
  {
    HoldsIsClosed(tree, ds);
    if NamesKept(ds, wire) {
      KeptIsUnambiguous(tree, wire, ds);
      WalkFindsDatasets(tree, wire, ds, listed, paths);
    } else {
      var i :| 0 <= i < |ds| && wire(ds[i].data).Some? && Rooted(ds[i].name);
      RootedDoesNotReturn(tree, wire, ds, imports, listed, paths, i);
    }
  }

  /**
   Export then convert, for any names: it fails exactly when one dataset is stored at or above
   the place of another, and otherwise returns every importable array under its own name, sorted,
   exactly when none of their names starts with a slash.
   */
  method ExportThenConvert<A>(ds: seq<Dataset<A>>, wire: Wire<A>) returns (r: Option<seq<PathWalks.Import<A>>>)
    ensures r.Some? <==> Compatible(ds)
    ensures r.Some? ==> (r.value == ByName(Importable(ds, wire)) <==> NamesKept(ds, wire))
  {
    var tree := Export(ds);
    if tree.None? {
      return None;
    }
    HoldsIsClosed(tree.value, ds);
    ghost var listed, paths;
    var imports;
    imports, listed, paths := Load(tree.value, wire);
    LoadOfExport(tree.value, wire, ds, imports, listed, paths);
    return Some(imports);
  }

  // ----- what the result is -----

  ghost predicate AllImportable<A>(ds: seq<Dataset<A>>, wire: Wire<A>) {
    forall i :: 0 <= i < |ds| ==> wire(ds[i].data) == Some(ds[i].data)
  }

  lemma {:induction false} EveryDatasetOnce<A>(ds: seq<Dataset<A>>, wire: Wire<A>)
    requires Compatible(ds) && AllImportable(ds, wire)
    ensures |Importable(ds, wire)| == |ds|
  {
    if ds != [] {
      var n := |ds| - 1;
      CompatiblePrefix(ds, n);
      EveryDatasetOnce(ds[..n], wire);
      NewName(ds, wire);
    }
  }

  lemma NewName<A>(ds: seq<Dataset<A>>, wire: Wire<A>)
    requires ds != [] && Compatible(ds)
    ensures ds[|ds| - 1].name !in Importable(ds[..|ds| - 1], wire)
  {
    var n := |ds| - 1;
    CompatiblePrefix(ds, n);
    ImportableHolds(ds[..n], wire);
    assert forall i :: 0 <= i < n ==> !Clash(PathOf(ds[..n][i]), PathOf(ds[n]));
  }

  /**
   When every array is importable as it is, the round trip is the identity on names and arrays:
   the dictionary of the imports maps each dataset's name to its array and holds nothing else.
   */
  lemma RoundTripIsIdentity<A>(ds: seq<Dataset<A>>, wire: Wire<A>)
    requires Compatible(ds) && AllImportable(ds, wire)
    ensures |Importable(ds, wire)| == |ds|
    ensures forall i :: 0 <= i < |ds| ==>
      ds[i].name in Importable(ds, wire) && Importable(ds, wire)[ds[i].name] == ds[i].data
  {
    EveryDatasetOnce(ds, wire);
    ImportableHolds(ds, wire);
  }

  /** The imports are sorted by full name without duplicates. */
  lemma ByNameSorted<A>(arrays: map<string, A>)
    ensures forall k, l :: 0 <= k < l < |ByName(arrays)| ==> Less(ByName(arrays)[k].name, ByName(arrays)[l].name)
    ensures forall k :: 0 <= k < |ByName(arrays)| ==>
      ByName(arrays)[k].name in arrays && ByName(arrays)[k].data == arrays[ByName(arrays)[k].name]
  {
    NamesAreKeys(arrays);
    var names := SortedKeys(arrays.Keys);
    assert forall k :: 0 <= k < |names| ==> ByName(arrays)[k].name == names[k];
  }

  /** Names that stand in each other's way: equal, or one is the other with a slash and more. */
  ghost predicate NamesClash(a: string, b: string) {
    a == b || a + "/" <= b || b + "/" <= a
  }

  lemma ClashByName<A>(d: Dataset<A>, e: Dataset<A>)
    ensures Clash(PathOf(d), PathOf(e)) <==> NamesClash(StoredName(d.name), StoredName(e.name))
  {
    StoredPathOfName(d.name);
    StoredPathOfName(e.name);
    AboveByName(StoredName(d.name), StoredName(e.name));
    AboveByName(StoredName(e.name), StoredName(d.name));
  }

  /** Exactly when an export succeeds, in terms of the names alone. */
  lemma CompatibleMeans<A>(ds: seq<Dataset<A>>)
    ensures Compatible(ds) <==> forall i, j :: 0 <= i < j < |ds| ==>
      var a, b := StoredName(ds[i].name), StoredName(ds[j].name);
      a != b && !(a + "/" <= b) && !(b + "/" <= a)
  {
    forall i, j | 0 <= i < j < |ds|
      ensures Clash(PathOf(ds[i]), PathOf(ds[j])) <==> NamesClash(StoredName(ds[i].name), StoredName(ds[j].name))
    {
      ClashByName(ds[i], ds[j]);
    }
  }

  /**
   The imports of a kept round trip: strictly increasing by name, one for every importable
   dataset under its own name with its imported array, and nothing else.
   */
  lemma ImportsMean<A>(ds: seq<Dataset<A>>, wire: Wire<A>)
    requires Compatible(ds)
    ensures var imports := ByName(Importable(ds, wire));
            (forall k, l :: 0 <= k < l < |imports| ==> Less(imports[k].name, imports[l].name))
            && (forall k :: 0 <= k < |imports| ==> ComesFrom(ds, wire, imports[k]))
            && (forall i :: 0 <= i < |ds| && wire(ds[i].data).Some? ==>
                  PathWalks.Import(ds[i].name, wire(ds[i].data).value) in imports)
  {
    var imports := ByName(Importable(ds, wire));
    ImportableHolds(ds, wire);
    ByNameSorted(Importable(ds, wire));
    forall k | 0 <= k < |imports|
      ensures ComesFrom(ds, wire, imports[k])
    {
      var i :| 0 <= i < |ds| && ds[i].name == imports[k].name && wire(ds[i].data).Some?;
    }
    forall i | 0 <= i < |ds| && wire(ds[i].data).Some?
      ensures PathWalks.Import(ds[i].name, wire(ds[i].data).value) in imports
    {
      var k := NameIsListed(Importable(ds, wire), ds[i].name);
      assert imports[k] == PathWalks.Import(ds[i].name, wire(ds[i].data).value);
    }
  }

  ghost predicate ComesFrom<A>(ds: seq<Dataset<A>>, wire: Wire<A>, item: PathWalks.Import<A>) {
    exists i :: 0 <= i < |ds| && wire(ds[i].data) == Some(item.data) && ds[i].name == item.name
  }

  /** Exporting in another order fails or succeeds alike and gives the same imports. */
  lemma OrderIsIrrelevant<A>(ds: seq<Dataset<A>>, es: seq<Dataset<A>>, wire: Wire<A>)
    requires multiset(ds) == multiset(es)
    ensures Compatible(ds) <==> Compatible(es)
    ensures Compatible(ds) ==> Importable(ds, wire) == Importable(es, wire)
  {
    if Compatible(ds) {
      ReorderCompatible(ds, es);
    }
    if Compatible(es) {
      ReorderCompatible(es, ds);
    }
    if Compatible(ds) {
      SameDatasets(ds, es);
      SameDatasets(es, ds);
      ImportableWithin(ds, es, wire);
      ImportableWithin(es, ds, wire);
    }
  }

  lemma SameDatasets<A>(ds: seq<Dataset<A>>, es: seq<Dataset<A>>)
    requires multiset(ds) == multiset(es)
    ensures forall d :: d in ds ==> d in es
  {
    forall d | d in ds
      ensures d in es
    {
      assert d in multiset(es);
    }
  }

  lemma ReorderCompatible<A>(ds: seq<Dataset<A>>, es: seq<Dataset<A>>)
    requires multiset(ds) == multiset(es) && Compatible(ds)
    ensures Compatible(es)
  {
    forall i, j | 0 <= i < j < |es|
      ensures !Clash(PathOf(es[i]), PathOf(es[j]))
    {
      var k, l := TwoPlaces(es, ds, i, j);
    }
  }

  lemma ImportableWithin<A>(ds: seq<Dataset<A>>, es: seq<Dataset<A>>, wire: Wire<A>)
    requires Compatible(ds) && Compatible(es) && forall d :: d in ds ==> d in es
    ensures forall name :: name in Importable(ds, wire) ==>
      name in Importable(es, wire) && Importable(es, wire)[name] == Importable(ds, wire)[name]
  {
    ImportableHolds(ds, wire);
    ImportableHolds(es, wire);
    forall name | name in Importable(ds, wire)
      ensures name in Importable(es, wire) && Importable(es, wire)[name] == Importable(ds, wire)[name]
    {
      var i :| 0 <= i < |ds| && ds[i].name == name && wire(ds[i].data).Some?;
      assert ds[i] in es;
      var j :| 0 <= j < |es| && es[j] == ds[i];
    }
  }
}
