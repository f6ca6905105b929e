/** The dimension table of a NetCDF export: one length per dimension name and group. */
module NcDims {
  import opened Wrappers
  import opened Decimals
  import opened PathNames

  /** A dataset to write; `dimNames` are the names recorded for it, if any. */
  datatype Variable = Variable(name: string, dimNames: Option<seq<string>>, shape: seq<nat>)

  /** One axis of a dataset names dimension `dim` of a group and needs length `len`. */
  datatype Use = Use(group: string, dim: string, len: nat)

  // ----- which dimensions a dataset uses -----

  predicate HasDimNames(v: Variable) {
    v.dimNames.Some? && |v.dimNames.value| == |v.shape|
    && forall i :: 0 <= i < |v.dimNames.value| ==> v.dimNames.value[i] != ""
  }

  /** Recorded names when there is a usable one per axis, otherwise `<leaf>_d<axis>`. */
  function ResolveDims(v: Variable, leaf: string): (dims: seq<string>)
    ensures |dims| == |v.shape|
  {
    if HasDimNames(v) then v.dimNames.value
    else seq(|v.shape|, i requires 0 <= i < |v.shape| => DefaultDim(leaf, i))
  }

  function UsesFrom(group: string, dims: seq<string>, shape: seq<nat>): (uses: seq<Use>)
    requires |dims| == |shape|
    ensures |uses| == |shape|
  {
    seq(|shape|, i requires 0 <= i < |shape| => Use(group, dims[i], shape[i]))
  }

  function UsesOf(v: Variable): seq<Use> {
    var (key, leaf) := SplitPath(v.name);
    UsesFrom(key, ResolveDims(v, leaf), v.shape)
  }

  /**
   The dimension of one axis: its recorded name if there is one non-empty name per axis, and
   otherwise the leaf of the dataset's name and the number of the axis.
   */
  ghost function DimOf(v: Variable, axis: nat): (dim: string)
    requires axis < |v.shape|
    ensures (v.dimNames.Some? && |v.dimNames.value| == |v.shape|
             && forall a :: 0 <= a < |v.dimNames.value| ==> v.dimNames.value[a] != "") ==>
      dim == v.dimNames.value[axis]
    ensures !(v.dimNames.Some? && |v.dimNames.value| == |v.shape|
              && forall a :: 0 <= a < |v.dimNames.value| ==> v.dimNames.value[a] != "") ==>
      dim == SplitPath(v.name).1 + "_d" + Decimal(axis)
  {
    ResolveDims(v, SplitPath(v.name).1)[axis]
  }

  function AllUses(vs: seq<Variable>): seq<Use> {
    if vs == [] then [] else AllUses(vs[..|vs| - 1]) + UsesOf(vs[|vs| - 1])
  }

  /** No name of a group is used with two lengths. */
  ghost predicate Consistent(uses: seq<Use>) {
    forall u, w | u in uses && w in uses && u.group == w.group && u.dim == w.dim :: u.len == w.len
  }

  // ----- the table -----

  type Lens = map<(string, string), nat>
  type Dimensions = map<(Path, string), nat>

  ghost predicate EntryIsUse(lens: Lens, uses: seq<Use>, key: (string, string))
    requires key in lens
  {
    Use(key.0, key.1, lens[key]) in uses
  }

  /** The table holds the uses and nothing else. */
  ghost predicate Records(lens: Lens, uses: seq<Use>) {
    && (forall u | u in uses :: (u.group, u.dim) in lens && lens[(u.group, u.dim)] == u.len)
    && (forall key {:trigger EntryIsUse(lens, uses, key)} | key in lens :: EntryIsUse(lens, uses, key))
  }

  ghost predicate IsCreated(lens: Lens, dimensions: Dimensions, key: (string, string))
    requires key in lens
  {
    (GroupPath(key.0), key.1) in dimensions && dimensions[(GroupPath(key.0), key.1)] == lens[key]
  }

  ghost predicate IsListed(lens: Lens, dimensions: Dimensions, at: (Path, string)) {
    (Join(at.0), at.1) in lens && GroupPath(Join(at.0)) == at.0
  }

  /** The dimensions created in the file are those of the table. */
  ghost predicate Synced(lens: Lens, dimensions: Dimensions) {
    && (forall key {:trigger IsCreated(lens, dimensions, key)} | key in lens :: IsCreated(lens, dimensions, key))
    && (forall at {:trigger IsListed(lens, dimensions, at)} | at in dimensions :: IsListed(lens, dimensions, at))
  }

  lemma GroupPathJoins(key: string)
    ensures Join(GroupPath(key)) == key
  {
    if key != "" {
      JoinSplit(key);
    }
  }

  lemma SyncedStep(lens: Lens, dimensions: Dimensions, group: string, dim: string, len: nat)
    requires Synced(lens, dimensions) && (group, dim) !in lens
    ensures (GroupPath(group), dim) !in dimensions
    ensures Synced(lens[(group, dim) := len], dimensions[(GroupPath(group), dim) := len])
  {
    GroupPathJoins(group);
    var at := (GroupPath(group), dim);
    assert at in dimensions ==> IsListed(lens, dimensions, at);
    var lens', dimensions' := lens[(group, dim) := len], dimensions[at := len];
    forall key | key in lens'
      ensures IsCreated(lens', dimensions', key)
    {
      GroupPathJoins(key.0);
      if key != (group, dim) {
        assert IsCreated(lens, dimensions, key);
      }
    }
    forall x | x in dimensions'
      ensures IsListed(lens', dimensions', x)
    {
      if x != at {
        assert IsListed(lens, dimensions, x);
      }
    }
  }

  lemma RecordsConsistent(lens: Lens, uses: seq<Use>)
    requires Records(lens, uses)
    ensures Consistent(uses)
  {
  }

  lemma RecordsNew(lens: Lens, uses: seq<Use>, u: Use)
    requires Records(lens, uses) && (u.group, u.dim) !in lens
    ensures Records(lens[(u.group, u.dim) := u.len], uses + [u])
  {
    var now := lens[(u.group, u.dim) := u.len];
    forall w | w in uses
      ensures (w.group, w.dim) in now && now[(w.group, w.dim)] == w.len
    {
      assert (w.group, w.dim) in lens;
    }
    forall key | key in now
      ensures EntryIsUse(now, uses + [u], key)
    {
      if key != (u.group, u.dim) {
        assert EntryIsUse(lens, uses, key);
      }
    }
  }

  lemma RecordsOld(lens: Lens, uses: seq<Use>, u: Use)
    requires Records(lens, uses) && (u.group, u.dim) in lens && lens[(u.group, u.dim)] == u.len
    ensures Records(lens, uses + [u])
  {
    forall key | key in lens
      ensures EntryIsUse(lens, uses + [u], key)
    {
      assert EntryIsUse(lens, uses, key);
    }
  }

  /** The use on `axis` is the first of `needed` that some earlier use contradicts. */
  ghost predicate FirstConflict(before: seq<Use>, needed: seq<Use>, axis: nat) {
    axis < |needed| && Consistent(before + needed[..axis]) && !Consistent(before + needed[..axis + 1])
  }

  lemma OneMoreUse(before: seq<Use>, needed: seq<Use>, axis: nat)
    requires axis < |needed|
    ensures before + needed[..axis + 1] == before + needed[..axis] + [needed[axis]]
  {
  }

  /** A recorded name used with another length is the first conflict, and none of the uses can be taken back. */
  lemma ConflictAt(lens: Lens, before: seq<Use>, needed: seq<Use>, axis: nat)
    requires axis < |needed| && Records(lens, before + needed[..axis])
    requires (needed[axis].group, needed[axis].dim) in lens
    requires lens[(needed[axis].group, needed[axis].dim)] != needed[axis].len
    ensures FirstConflict(before, needed, axis) && !Consistent(before + needed)
  {
    var u := needed[axis];
    var w := Use(u.group, u.dim, lens[(u.group, u.dim)]);
    assert EntryIsUse(lens, before + needed[..axis], (u.group, u.dim));
    RecordsConsistent(lens, before + needed[..axis]);
    OneMoreUse(before, needed, axis);
    assert u in before + needed[..axis + 1] && w in before + needed[..axis + 1];
    assert u in before + needed && w in before + needed;
  }

  class NcFile {
    var dimLens: Lens
    var dimensions: Dimensions
    /** Every use accepted so far. */
    ghost var uses: seq<Use>

    ghost predicate Valid()
      reads this
    {
      Records(dimLens, uses) && Synced(dimLens, dimensions)
    }

    constructor ()
      ensures Valid() && uses == []
    {
      dimLens := map[];
      dimensions := map[];
      uses := [];
    }

    /** One axis: reuse a dimension of the same length, create a missing one, refuse another length. */
    method EnsureDim(group: string, dim: string, len: nat) returns (ok: bool)
      requires Valid()
      modifies this
      ensures Valid()
      ensures ok == ((group, dim) in old(dimLens) ==> old(dimLens)[(group, dim)] == len)
      ensures ok ==> uses == old(uses) + [Use(group, dim, len)]
      ensures !ok ==> uses == old(uses) && dimLens == old(dimLens) && dimensions == old(dimensions)
    {
      var key := (group, dim);
      if key in dimLens {
        if dimLens[key] != len {
          return false;
        }
        RecordsOld(dimLens, uses, Use(group, dim, len));
      } else {
        SyncedStep(dimLens, dimensions, group, dim, len);
        RecordsNew(dimLens, uses, Use(group, dim, len));
        if (GroupPath(group), dim) !in dimensions {
          dimensions := dimensions[(GroupPath(group), dim) := len];
        }
        dimLens := dimLens[key := len];
      }
      uses := uses + [Use(group, dim, len)];
      return true;
    }

    /** Every axis of one dataset; the name of the first dimension with a length conflict, if any. */
    method EnsureDims(group: string, dims: seq<string>, shape: seq<nat>) returns (conflict: Option<string>)
      requires Valid() && |dims| == |shape|
      modifies this
      ensures Valid()
      ensures conflict.None? <==> Consistent(old(uses) + UsesFrom(group, dims, shape))
      ensures conflict.None? ==> uses == old(uses) + UsesFrom(group, dims, shape)
      ensures conflict.Some? ==>
        exists axis: nat :: FirstConflict(old(uses), UsesFrom(group, dims, shape), axis) && conflict.value == dims[axis]
    {
      ghost var before, needed := uses, UsesFrom(group, dims, shape);
      for i := 0 to |dims|
        invariant Valid() && uses == before + needed[..i]
      {
        var ok := EnsureDim(group, dims[i], shape[i]);
        if !ok {
          ConflictAt(dimLens, before, needed, i);
          return Some(dims[i]);
        }
        OneMoreUse(before, needed, i);
      }
      assert needed[..|dims|] == needed;
      RecordsConsistent(dimLens, uses);
      return None;
    }
  }

  /** The file created for a list of datasets gives each the lengths of its shape. */
  ghost predicate FitsShape(dimensions: Dimensions, v: Variable) {
    var (key, leaf) := SplitPath(v.name);
    var dims := ResolveDims(v, leaf);
    forall axis :: 0 <= axis < |v.shape| ==>
      (GroupPath(key), dims[axis]) in dimensions && dimensions[(GroupPath(key), dims[axis])] == v.shape[axis]
  }

  lemma ConsistentPrefix(uses: seq<Use>, all: seq<Use>)
    requires uses <= all && Consistent(all)
    ensures Consistent(uses)
  {
    assert forall u :: u in uses ==> u in all;
  }

  lemma {:induction false} UsesGrow(vs: seq<Variable>, n: nat)
    requires n <= |vs|
    ensures AllUses(vs[..n]) <= AllUses(vs)
    decreases |vs| - n
  {
    if n < |vs| {
      UsesGrow(vs, n + 1);
      assert vs[..n + 1][..n] == vs[..n];
    } else {
      assert vs[..n] == vs;
    }
  }

  /** The uses up to variable `n`; if they conflict, so do all. */
  lemma UsesPrefix(vs: seq<Variable>, n: nat)
    requires n < |vs|
    ensures AllUses(vs[..n + 1]) == AllUses(vs[..n]) + UsesOf(vs[n])
    ensures Consistent(AllUses(vs)) ==> Consistent(AllUses(vs[..n + 1]))
  {
    assert vs[..n + 1][..n] == vs[..n];
    UsesGrow(vs, n + 1);
    if Consistent(AllUses(vs)) {
      ConsistentPrefix(AllUses(vs[..n + 1]), AllUses(vs));
    }
  }

  lemma UseOfVariable(vs: seq<Variable>, i: nat, axis: nat)
    requires i < |vs| && axis < |vs[i].shape|
    ensures UsesOf(vs[i])[axis] in AllUses(vs)
  {
    UsesGrow(vs, i + 1);
    assert vs[..i + 1][..i] == vs[..i];
    assert UsesOf(vs[i])[axis] in AllUses(vs[..i + 1]);
  }

  lemma RecordedFits(lens: Lens, dimensions: Dimensions, vs: seq<Variable>, i: nat)
    requires Records(lens, AllUses(vs)) && Synced(lens, dimensions) && i < |vs|
    ensures FitsShape(dimensions, vs[i])
  {
    var (key, leaf) := SplitPath(vs[i].name);
    var dims := ResolveDims(vs[i], leaf);
    forall axis | 0 <= axis < |vs[i].shape|
      ensures (GroupPath(key), dims[axis]) in dimensions
      ensures dimensions[(GroupPath(key), dims[axis])] == vs[i].shape[axis]
    {
      UseOfVariable(vs, i, axis);
      var u := UsesOf(vs[i])[axis];
      assert (u.group, u.dim) in lens && lens[(u.group, u.dim)] == u.len;
      assert IsCreated(lens, dimensions, (u.group, u.dim));
    }
  }

  lemma FitsByAxis(dimensions: Dimensions, vs: seq<Variable>)
    requires forall i :: 0 <= i < |vs| ==> FitsShape(dimensions, vs[i])
    ensures forall i, axis :: 0 <= i < |vs| && 0 <= axis < |vs[i].shape| ==>
      var place := (GroupPath(SplitPath(vs[i].name).0), DimOf(vs[i], axis));
      place in dimensions && dimensions[place] == vs[i].shape[axis]
  {
    forall i, axis | 0 <= i < |vs| && 0 <= axis < |vs[i].shape|
      ensures var place := (GroupPath(SplitPath(vs[i].name).0), DimOf(vs[i], axis));
              place in dimensions && dimensions[place] == vs[i].shape[axis]
    {
      assert FitsShape(dimensions, vs[i]);
    }
  }

  /**
   The dimension side of the NetCDF writer. It fails exactly when two axes of the datasets use
   one name of one group with different lengths; otherwise every variable finds, under its own
   dimension names, the lengths of its shape.
   */
  method WriteNetcdf(vs: seq<Variable>) returns (r: Result<Dimensions, string>)
    ensures r.Ok? <==> Consistent(AllUses(vs))
    ensures r.Ok? ==> forall i, axis :: 0 <= i < |vs| && 0 <= axis < |vs[i].shape| ==>
      var place := (GroupPath(SplitPath(vs[i].name).0), DimOf(vs[i], axis));
      place in r.value && r.value[place] == vs[i].shape[axis]
    ensures r.Ok? ==> forall at :: at in r.value ==> Use(Join(at.0), at.1, r.value[at]) in AllUses(vs)
  {
    var file := new NcFile();
    for n := 0 to |vs|
      invariant fresh(file) && file.Valid() && file.uses == AllUses(vs[..n])
    {
      var (key, leaf) := SplitPath(vs[n].name);
      UsesPrefix(vs, n);
      var conflict := file.EnsureDims(key, ResolveDims(vs[n], leaf), vs[n].shape);
      if conflict.Some? {
        return Err(conflict.value);
      }
    }
    assert vs[..|vs|] == vs;
    RecordsConsistent(file.dimLens, file.uses);
    forall i | 0 <= i < |vs|
      ensures FitsShape(file.dimensions, vs[i])
    {
      RecordedFits(file.dimLens, file.dimensions, vs, i);
    }
    FitsByAxis(file.dimensions, vs);
    forall at | at in file.dimensions
      ensures Use(Join(at.0), at.1, file.dimensions[at]) in AllUses(vs)
    {
      assert IsListed(file.dimLens, file.dimensions, at);
      assert IsCreated(file.dimLens, file.dimensions, (Join(at.0), at.1));
      assert EntryIsUse(file.dimLens, file.uses, (Join(at.0), at.1));
    }
    return Ok(file.dimensions);
  }

  lemma {:induction false} UsesByVariable(vs: seq<Variable>, u: Use)
    ensures u in AllUses(vs) <==> exists v :: v in vs && u in UsesOf(v)
  {
    if vs != [] {
      var n := |vs| - 1;
      UsesByVariable(vs[..n], u);
      assert vs == vs[..n] + [vs[n]];
    }
  }

  /** Whether the export fails does not depend on the order of the datasets. */
  lemma ConflictIgnoresOrder(vs: seq<Variable>, ws: seq<Variable>)
    requires forall v :: v in vs <==> v in ws
    ensures Consistent(AllUses(vs)) <==> Consistent(AllUses(ws))
  {
    forall u
      ensures u in AllUses(vs) <==> u in AllUses(ws)
    {
      UsesByVariable(vs, u);
      UsesByVariable(ws, u);
    }
  }

  lemma UseIs(v: Variable, axis: nat)
    requires axis < |v.shape|
    ensures UsesOf(v)[axis] == Use(SplitPath(v.name).0, DimOf(v, axis), v.shape[axis])
  {
  }

  lemma UseHasAxis(vs: seq<Variable>, u: Use) returns (i: nat, axis: nat)
    requires u in AllUses(vs)
    ensures i < |vs| && axis < |vs[i].shape|
    ensures u == Use(SplitPath(vs[i].name).0, DimOf(vs[i], axis), vs[i].shape[axis])
  {
    UsesByVariable(vs, u);
    i :| 0 <= i < |vs| && u in UsesOf(vs[i]);
    axis :| 0 <= axis < |UsesOf(vs[i])| && UsesOf(vs[i])[axis] == u;
    UseIs(vs[i], axis);
  }

  /** Two axes that share a dimension of a group have the same length. */
  ghost predicate AxesAgree(v: Variable, a: nat, w: Variable, b: nat)
    requires a < |v.shape| && b < |w.shape|
  {
    SplitPath(v.name).0 == SplitPath(w.name).0 && DimOf(v, a) == DimOf(w, b) ==> v.shape[a] == w.shape[b]
  }

  lemma AxesFromUses(vs: seq<Variable>, i: nat, a: nat, j: nat, b: nat)
    requires Consistent(AllUses(vs)) && i < |vs| && j < |vs| && a < |vs[i].shape| && b < |vs[j].shape|
    ensures AxesAgree(vs[i], a, vs[j], b)
  {
    UseOfVariable(vs, i, a);
    UseOfVariable(vs, j, b);
    UseIs(vs[i], a);
    UseIs(vs[j], b);
  }

  lemma UsesFromAxes(vs: seq<Variable>, u: Use, w: Use)
    requires forall i, a, j, b :: 0 <= i < |vs| && 0 <= j < |vs| && 0 <= a < |vs[i].shape| && 0 <= b < |vs[j].shape| ==>
      AxesAgree(vs[i], a, vs[j], b)
    requires u in AllUses(vs) && w in AllUses(vs) && u.group == w.group && u.dim == w.dim
    ensures u.len == w.len
  {
    var i, a := UseHasAxis(vs, u);
    var j, b := UseHasAxis(vs, w);
    assert AxesAgree(vs[i], a, vs[j], b);
  }

  /** Exactly when the dimensions conflict: two axes of one group share a dimension and differ in length. */
  lemma ConsistentMeans(vs: seq<Variable>)
    ensures Consistent(AllUses(vs))
       <==> forall i, a, j, b :: 0 <= i < |vs| && 0 <= j < |vs| && 0 <= a < |vs[i].shape| && 0 <= b < |vs[j].shape| ==>
              AxesAgree(vs[i], a, vs[j], b)
  {
    var all := AllUses(vs);
    if Consistent(all) {
      forall i, a, j, b | 0 <= i < |vs| && 0 <= j < |vs| && 0 <= a < |vs[i].shape| && 0 <= b < |vs[j].shape|
        ensures AxesAgree(vs[i], a, vs[j], b)
      {
        AxesFromUses(vs, i, a, j, b);
      }
    }
    if forall i, a, j, b :: 0 <= i < |vs| && 0 <= j < |vs| && 0 <= a < |vs[i].shape| && 0 <= b < |vs[j].shape| ==>
         AxesAgree(vs[i], a, vs[j], b)
    {
      forall u, w | u in all && w in all && u.group == w.group && u.dim == w.dim
        ensures u.len == w.len
      {
        UsesFromAxes(vs, u, w);
      }
    }
  }

  // ----- default dimension names -----

  /** `<leaf>_d<axis>` */
  function DefaultDim(leaf: string, axis: nat): string {
    leaf + "_d" + Decimal(axis)
  }

  /** Nothing after the `d` is anything but a digit. */
  lemma NotDigitAt(leaf: string, axis: nat, at: nat)
    requires at < |DefaultDim(leaf, axis)| && !IsDigit(DefaultDim(leaf, axis)[at])
    ensures at < |leaf| + 2
  {
    var text := DefaultDim(leaf, axis);
    assert text[|leaf| + 2..] == Decimal(axis);
    assert AllDigits(text[|leaf| + 2..]);
    assert forall p :: |leaf| + 2 <= p < |text| ==> text[p] == text[|leaf| + 2..][p - (|leaf| + 2)];
  }

  lemma LongerLeaf(leaf: string, other: string, i: nat, j: nat)
    requires DefaultDim(leaf, i) == DefaultDim(other, j)
    ensures |other| <= |leaf|
  {
    assert DefaultDim(other, j)[|other| + 1] == 'd';
    NotDigitAt(leaf, i, |other| + 1);
  }

  /** A default dimension name tells its leaf and its axis. */
  lemma DefaultDimInjective(leaf: string, other: string, i: nat, j: nat)
    requires DefaultDim(leaf, i) == DefaultDim(other, j)
    ensures leaf == other && i == j
  {
    LongerLeaf(leaf, other, i, j);
    LongerLeaf(other, leaf, j, i);
    assert leaf == DefaultDim(leaf, i)[..|leaf|] && other == DefaultDim(other, j)[..|other|];
    assert Decimal(i) == DefaultDim(leaf, i)[|leaf| + 2..] && Decimal(j) == DefaultDim(other, j)[|other| + 2..];
    DecimalInjective(i, j);
  }

  lemma UseOf(v: Variable, u: Use) returns (axis: nat)
    requires u in UsesOf(v) && !HasDimNames(v)
    ensures axis < |v.shape|
    ensures u == Use(SplitPath(v.name).0, DefaultDim(SplitPath(v.name).1, axis), v.shape[axis])
  {
    axis :| 0 <= axis < |UsesOf(v)| && UsesOf(v)[axis] == u;
  }

  lemma VariableUsing(vs: seq<Variable>, u: Use) returns (i: nat)
    requires u in AllUses(vs)
    ensures i < |vs| && u in UsesOf(vs[i])
  {
    UsesByVariable(vs, u);
    i :| 0 <= i < |vs| && u in UsesOf(vs[i]);
  }

  /** Two uses of one default name in one group are the same axis of the same place. */
  lemma SameUse(v: Variable, v': Variable, u: Use, w: Use) returns (axis: nat)
    requires !HasDimNames(v) && !HasDimNames(v') && u in UsesOf(v) && w in UsesOf(v')
    requires u.group == w.group && u.dim == w.dim
    ensures SplitPath(v.name) == SplitPath(v'.name)
    ensures axis < |v.shape| && axis < |v'.shape| && u.len == v.shape[axis] && w.len == v'.shape[axis]
  {
    axis := UseOf(v, u);
    var b := UseOf(v', w);
    DefaultDimInjective(SplitPath(v.name).1, SplitPath(v'.name).1, axis, b);
  }

  /** Two datasets stored at one place, if there are any, agree on the axes they both have. */
  ghost predicate AgreeOnAxis(v: Variable, v': Variable, axis: nat) {
    SplitPath(v.name) == SplitPath(v'.name) && axis < |v.shape| && axis < |v'.shape| ==> v.shape[axis] == v'.shape[axis]
  }

  ghost predicate PlacesAgree(vs: seq<Variable>) {
    forall i, j, axis {:trigger AgreeOnAxis(vs[i], vs[j], axis)} | 0 <= i < |vs| && 0 <= j < |vs| && axis >= 0 ::
      AgreeOnAxis(vs[i], vs[j], axis)
  }

  lemma DefaultUsesAgree(vs: seq<Variable>, u: Use, w: Use)
    requires PlacesAgree(vs) && forall i :: 0 <= i < |vs| ==> !HasDimNames(vs[i])
    requires u in AllUses(vs) && w in AllUses(vs) && u.group == w.group && u.dim == w.dim
    ensures u.len == w.len
  {
    var i := VariableUsing(vs, u);
    var j := VariableUsing(vs, w);
    var axis := SameUse(vs[i], vs[j], u, w);
    assert AgreeOnAxis(vs[i], vs[j], axis);
  }

  lemma AgreeOnUse(vs: seq<Variable>, i: nat, j: nat, axis: nat)
    requires Consistent(AllUses(vs)) && i < |vs| && j < |vs| && !HasDimNames(vs[i]) && !HasDimNames(vs[j])
    ensures AgreeOnAxis(vs[i], vs[j], axis)
  {
    if axis < |vs[i].shape| && axis < |vs[j].shape| {
      UseOfVariable(vs, i, axis);
      UseOfVariable(vs, j, axis);
    }
  }

  /**
   Without usable recorded names an export conflicts exactly when two datasets of one place, such
   as `a` and `/a`, have different shapes; datasets of distinct places never conflict.
   */
  lemma DefaultNamesConsistent(vs: seq<Variable>)
    requires forall i :: 0 <= i < |vs| ==> !HasDimNames(vs[i])
    ensures Consistent(AllUses(vs)) <==> PlacesAgree(vs)
  {
    var all := AllUses(vs);
    if PlacesAgree(vs) {
      forall u, w | u in all && w in all && u.group == w.group && u.dim == w.dim
        ensures u.len == w.len
      {
        DefaultUsesAgree(vs, u, w);
      }
    }
    if Consistent(all) {
      forall i: nat, j: nat, axis: nat | i < |vs| && j < |vs|
        ensures AgreeOnAxis(vs[i], vs[j], axis)
      {
        AgreeOnUse(vs, i, j, axis);
      }
    }
  }
}
