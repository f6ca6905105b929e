/** The whole NetCDF export, groups, dimensions and variables together, and its way back. */
module NetcdfRoundTrip {
  import opened Wrappers
  import opened PathNames
  import opened PathTrees
  import opened PathWalks
  import opened ExportRoundTrip
  import opened NcDims

  /** The recorded dimension names of an array, if any, and its shape. */
  type Describe<!A> = A -> (Option<seq<string>>, seq<nat>)

  function VariableOf<A>(d: Dataset<A>, describe: Describe<A>): Variable {
    Variable(d.name, describe(d.data).0, describe(d.data).1)
  }

  function VariablesOf<A>(ds: seq<Dataset<A>>, describe: Describe<A>): (vs: seq<Variable>)
    ensures |vs| == |ds|
  {
    seq(|ds|, i requires 0 <= i < |ds| => VariableOf(ds[i], describe))
  }

  /** Open the groups, create the dimensions, then the variable; for every dataset in turn. */
  method ExportNetcdf<A>(ds: seq<Dataset<A>>, describe: Describe<A>) returns (r: Option<(Tree<A>, Dimensions)>)
    ensures r.Some? <==> Compatible(ds) && Consistent(AllUses(VariablesOf(ds, describe)))
    ensures r.Some? ==> Holds(r.value.0, ds)
    ensures r.Some? ==> forall i, axis :: 0 <= i < |ds| && 0 <= axis < |describe(ds[i].data).1| ==>
      var v := Variable(ds[i].name, describe(ds[i].data).0, describe(ds[i].data).1);
      var place := (GroupPath(SplitPath(ds[i].name).0), DimOf(v, axis));
      place in r.value.1 && r.value.1[place] == describe(ds[i].data).1[axis]
  {
    var vs := VariablesOf(ds, describe);
    var file := new GroupFile<A>();
    var dims := new NcFile();
    for n := 0 to |ds|
      invariant fresh(file) && fresh(dims)
      invariant Written(file.tree, ds, n)
      invariant dims.Valid() && dims.uses == AllUses(vs[..n])
    {
      ghost var before := file.tree;
      BlockedIffIncompatible(before, ds, n);
      var (key, leaf) := SplitPath(ds[n].name);
      BlockedAt(before, GroupPath(key), leaf);
      var isOpen := file.EnsureGroup(GroupPath(key));
      if !isOpen {
        return None;
      }
      UsesPrefix(vs, n);
      var conflict := dims.EnsureDims(key, ResolveDims(vs[n], leaf), vs[n].shape);
      if conflict.Some? {
        return None;
      }
      var ok := file.WriteArray(GroupPath(key), leaf, ds[n], before);
      if !ok {
        return None;
      }
      WrittenStep(before, file.tree, ds, n);
    }
    assert ds[..|ds|] == ds && vs[..|vs|] == vs;
    RecordsConsistent(dims.dimLens, dims.uses);
    forall i | 0 <= i < |vs|
      ensures FitsShape(dims.dimensions, vs[i])
    {
      RecordedFits(dims.dimLens, dims.dimensions, vs, i);
    }
    FitsByAxis(dims.dimensions, vs);
    assert forall i :: 0 <= i < |ds| ==> vs[i] == Variable(ds[i].name, describe(ds[i].data).0, describe(ds[i].data).1);
    return Some((file.tree, dims.dimensions));
  }

  /**
   The NetCDF round trip: it fails exactly when one dataset is stored at or above the place of
   another or two axes use one name of one group with different lengths; otherwise it is the
   identity on the importable arrays exactly when none of their names starts with a slash.
   */
  method ExportThenConvertNetcdf<A>(ds: seq<Dataset<A>>, describe: Describe<A>, wire: Wire<A>)
    returns (r: Option<seq<PathWalks.Import<A>>>)
    ensures r.Some? <==> Compatible(ds) && Consistent(AllUses(VariablesOf(ds, describe)))
    ensures r.Some? ==> (r.value == ByName(Importable(ds, wire)) <==> NamesKept(ds, wire))
  {
    var written := ExportNetcdf(ds, describe);
    if written.None? {
      return None;
    }
    var tree := written.value.0;
    HoldsIsClosed(tree, ds);
    ghost var listed, paths;
    var imports;
    imports, listed, paths := LoadNetcdf(tree, wire);
    LoadOfExport(tree, wire, ds, imports, listed, paths);
    return Some(imports);
  }

  /** Datasets without usable recorded dimension names never conflict: only their places decide. */
  lemma DefaultDimsNeverConflict<A>(ds: seq<Dataset<A>>, describe: Describe<A>)
    requires Compatible(ds)
    requires forall i :: 0 <= i < |ds| ==> !HasDimNames(VariableOf(ds[i], describe))
    ensures Consistent(AllUses(VariablesOf(ds, describe)))
  {
    var vs := VariablesOf(ds, describe);
    forall i: nat, j: nat, axis: nat | i < |vs| && j < |vs|
      ensures AgreeOnAxis(vs[i], vs[j], axis)
    {
      if SplitPath(vs[i].name) == SplitPath(vs[j].name) {
        PlacesDiffer(ds, i, j);
      }
    }
    DefaultNamesConsistent(vs);
  }

  lemma PlacesDiffer<A>(ds: seq<Dataset<A>>, i: nat, j: nat)
    requires Compatible(ds) && i < |ds| && j < |ds| && SplitPath(ds[i].name) == SplitPath(ds[j].name)
    ensures i == j
  {
    assert PathOf(ds[i]) == PathOf(ds[j]) && Clash(PathOf(ds[i]), PathOf(ds[j]));
  }
}
