/** Reorderings of a list: taking one entry out, and where the entries of a list went. */
module Reorderings {

  function Without<T>(list: seq<T>, k: nat): (rest: seq<T>)
    requires k < |list|
    ensures |rest| == |list| - 1
    ensures forall p :: 0 <= p < |rest| ==> rest[p] == list[if p < k then p else p + 1]
  {
    list[..k] + list[k + 1..]
  }

  lemma WithoutCounts<T>(list: seq<T>, k: nat)
    requires k < |list|
    ensures multiset(Without(list, k)) == multiset(list) - multiset{list[k]}
  {
    assert list == list[..k] + ([list[k]] + list[k + 1..]);
  }

  /** Entry `k` moved to the front. */
  function ToFront<T>(list: seq<T>, k: nat): (moved: seq<T>)
    requires k < |list|
    ensures |moved| == |list| && moved[0] == list[k]
    ensures forall p :: 1 <= p < |moved| ==> moved[p] == list[if p - 1 < k then p - 1 else p]
  {
    [list[k]] + Without(list, k)
  }

  lemma ToFrontCounts<T>(list: seq<T>, k: nat)
    requires k < |list|
    ensures multiset(ToFront(list, k)) == multiset(list)
  {
    WithoutCounts(list, k);
  }

  /** Two entries moved to the front. */
  lemma TwoToFront<T>(list: seq<T>, i: nat, j: nat) returns (moved: seq<T>)
    requires i < |list| && j < |list| && i != j
    ensures multiset(moved) == multiset(list) && |moved| >= 2 && moved[0] == list[j] && moved[1] == list[i]
  {
    var once := ToFront(list, i);
    ToFrontCounts(list, i);
    var at := if j < i then j + 1 else j;
    moved := ToFront(once, at);
    ToFrontCounts(once, at);
  }

  lemma PlaceOf<T>(list: seq<T>, x: T) returns (k: nat)
    requires x in multiset(list)
    ensures k < |list| && list[k] == x
  {
    k :| 0 <= k < |list| && list[k] == x;
  }

  /** Two entries of a list have two places in every reordering of it, even when they are equal. */
  lemma TwoPlaces<T>(es: seq<T>, ds: seq<T>, i: nat, j: nat) returns (k: nat, l: nat)
    requires multiset(es) == multiset(ds) && i < j < |es|
    ensures k < |ds| && l < |ds| && k != l && ds[k] == es[i] && ds[l] == es[j]
  {
    k := PlaceOf(ds, es[i]);
    WithoutCounts(es, i);
    WithoutCounts(ds, k);
    assert Without(es, i)[j - 1] == es[j];
    assert es[j] in multiset(Without(es, i));
    var m := PlaceOf(Without(ds, k), es[j]);
    l := if m < k then m else m + 1;
  }
}
