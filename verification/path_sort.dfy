/** Sorting imports by name, and why the sorted list depends on the imports alone. */
module PathSorting {
  import opened SortedStrings
  import opened PathWalks

  /** Stable insertion: `item` goes before the first import that is not smaller. */
  function InsertByName<A>(item: Import<A>, imports: seq<Import<A>>): (r: seq<Import<A>>)
    ensures multiset(r) == multiset(imports) + multiset{item}
  {
    if imports == [] || !Less(imports[0].name, item.name) then
      [item] + imports
    else
      var rest := InsertByName(item, imports[1..]);
      assert imports == [imports[0]] + imports[1..];
      [imports[0]] + rest
  }

  /** A stable sort by name; it keeps what is listed. */
  function SortByName<A>(imports: seq<Import<A>>): (r: seq<Import<A>>)
    ensures multiset(r) == multiset(imports)
  {
    if imports == [] then
      []
    else
      assert imports == [imports[0]] + imports[1..];
      InsertByName(imports[0], SortByName(imports[1..]))
  }

  ghost predicate Increasing<A>(imports: seq<Import<A>>) {
    forall i, j :: 0 <= i < j < |imports| ==> Less(imports[i].name, imports[j].name)
  }

  lemma {:induction false} InsertIncreases<A>(item: Import<A>, imports: seq<Import<A>>)
    requires Increasing(imports) && forall x :: x in imports ==> x.name != item.name
    ensures Increasing(InsertByName(item, imports))
  {
    if imports == [] {
    } else if Less(imports[0].name, item.name) {
      var rest := InsertByName(item, imports[1..]);
      InsertIncreases(item, imports[1..]);
      forall j | 0 <= j < |rest|
        ensures Less(imports[0].name, rest[j].name)
      {
        assert rest[j] in multiset(rest);
      }
    } else {
      LessTotal(imports[0].name, item.name);
      assert imports[0] in imports;
      forall j | 0 <= j < |imports|
        ensures Less(item.name, imports[j].name)
      {
        if j > 0 {
          LessTransitive(item.name, imports[0].name, imports[j].name);
        }
      }
    }
  }

  lemma {:induction false} SortIncreases<A>(imports: seq<Import<A>>)
    requires DistinctNames(imports)
    ensures Increasing(SortByName(imports))
  {
    if imports != [] {
      SortIncreases(imports[1..]);
      forall x | x in SortByName(imports[1..])
        ensures x.name != imports[0].name
      {
        assert x in multiset(imports[1..]);
      }
      InsertIncreases(imports[0], SortByName(imports[1..]));
    }
  }

  function NamesOf<A>(imports: seq<Import<A>>): (names: seq<string>)
    ensures |names| == |imports|
  {
    seq(|imports|, i requires 0 <= i < |imports| => imports[i].name)
  }

  /** Two listings of the same imports have the same names. */
  lemma SameNames<A>(imports: seq<Import<A>>, others: seq<Import<A>>, k: nat) returns (i: nat)
    requires multiset(imports) == multiset(others) && k < |imports|
    ensures i < |others| && others[i] == imports[k] && NamesOf(others)[i] == imports[k].name
  {
    assert imports[k] in multiset(others);
    i :| 0 <= i < |others| && others[i] == imports[k];
  }

  lemma NamesAreListed<A>(imports: seq<Import<A>>, name: string)
    requires DistinctNames(imports)
    ensures name in NamesOf(imports) <==> name in ToMap(imports)
  {
    ToMapHolds(imports);
    if name in ToMap(imports) {
      var k :| 0 <= k < |imports| && imports[k].name == name;
      assert NamesOf(imports)[k] == name;
    }
  }

  lemma NamesSort<A>(imports: seq<Import<A>>, name: string)
    ensures name in NamesOf(SortByName(imports)) <==> name in NamesOf(imports)
  {
    var sorted := SortByName(imports);
    if name in NamesOf(sorted) {
      var i :| 0 <= i < |sorted| && NamesOf(sorted)[i] == name;
      var k := SameNames(sorted, imports, i);
    }
    if name in NamesOf(imports) {
      var k :| 0 <= k < |imports| && NamesOf(imports)[k] == name;
      var i := SameNames(imports, sorted, k);
    }
  }

  lemma SortedNamesAre<A>(imports: seq<Import<A>>)
    requires DistinctNames(imports)
    ensures NamesOf(SortByName(imports)) == SortedKeys(ToMap(imports).Keys)
  {
    SortIncreases(imports);
    forall name
      ensures name in NamesOf(SortByName(imports)) <==> name in ToMap(imports).Keys
    {
      NamesSort(imports, name);
      NamesAreListed(imports, name);
    }
    SortedUnique(NamesOf(SortByName(imports)), SortedKeys(ToMap(imports).Keys));
  }

  /** Sorting imports of distinct names lists the dictionary of the imports by name. */
  lemma SortIsByName<A>(imports: seq<Import<A>>)
    requires DistinctNames(imports)
    ensures SortByName(imports) == ByName(ToMap(imports))
  {
    var sorted := SortByName(imports);
    SortedNamesAre(imports);
    forall i | 0 <= i < |sorted|
      ensures sorted[i] == ByName(ToMap(imports))[i]
    {
      SortedEntry(imports, i);
    }
  }

  /** Entry `i` of the sorted list carries the array that the dictionary has for its name. */
  lemma SortedEntry<A>(imports: seq<Import<A>>, i: nat)
    requires DistinctNames(imports) && i < |SortByName(imports)|
    ensures var item := SortByName(imports)[i];
            NamesOf(SortByName(imports))[i] == item.name
            && item.name in ToMap(imports) && ToMap(imports)[item.name] == item.data
  {
    var k := SameNames(SortByName(imports), imports, i);
    ToMapHolds(imports);
  }

  /** Sorted without assuming distinct names: no import is smaller than one before it. */
  ghost predicate NonDecreasing<A>(imports: seq<Import<A>>) {
    forall i, j :: 0 <= i < j < |imports| ==> !Less(imports[j].name, imports[i].name)
  }

  lemma NotLessChain(s: string, t: string, u: string)
    requires !Less(t, s) && !Less(u, t)
    ensures !Less(u, s)
  {
    LessTotal(s, t);
    LessTotal(t, u);
    LessTotal(s, u);
    if Less(s, t) && Less(t, u) {
      LessTransitive(s, t, u);
    }
  }

  lemma {:induction false} InsertSorts<A>(item: Import<A>, imports: seq<Import<A>>)
    requires NonDecreasing(imports)
    ensures NonDecreasing(InsertByName(item, imports))
  {
    if imports == [] {
    } else if Less(imports[0].name, item.name) {
      InsertSorts(item, imports[1..]);
      var rest := InsertByName(item, imports[1..]);
      LessTotal(imports[0].name, item.name);
      forall j | 0 <= j < |rest|
        ensures !Less(rest[j].name, imports[0].name)
      {
        assert rest[j] in multiset(rest);
        assert rest[j] == item || rest[j] in imports[1..];
      }
    } else {
      forall j | 0 <= j < |imports|
        ensures !Less(imports[j].name, item.name)
      {
        if j > 0 {
          NotLessChain(item.name, imports[0].name, imports[j].name);
        }
      }
    }
  }

  /** The sort sorts, whatever the names. */
  lemma {:induction false} SortSorts<A>(imports: seq<Import<A>>)
    ensures NonDecreasing(SortByName(imports))
  {
    if imports != [] {
      SortSorts(imports[1..]);
      InsertSorts(imports[0], SortByName(imports[1..]));
    }
  }
}
