/**
 Row-major index arithmetic over boxes of any rank.
 An index is a sequence with one coordinate per axis; axis 0 varies slowest.
 */
module RowMajor {

  /** Number of cells in a box. The empty shape has one cell. */
  function Product(shape: seq<nat>): nat {
    if shape == [] then 1 else shape[0] * Product(shape[1..])
  }

  ghost predicate InBox(shape: seq<nat>, index: seq<nat>) {
    |index| == |shape| && forall i :: 0 <= i < |shape| ==> index[i] < shape[i]
  }

  /** Position of `index` when the cells of `shape` are listed with the last axis fastest. */
  function Rank(shape: seq<nat>, index: seq<nat>): nat
    requires |index| == |shape|
  {
    if shape == [] then 0 else index[0] * Product(shape[1..]) + Rank(shape[1..], index[1..])
  }

  /** The last axis is the fastest: appending an axis of length `n` multiplies the rank by `n`. */
  lemma {:induction false} RankAppends(shape: seq<nat>, index: seq<nat>, n: nat, i: nat)
    requires |index| == |shape|
    ensures Product(shape + [n]) == Product(shape) * n
    ensures Rank(shape + [n], index + [i]) == Rank(shape, index) * n + i
  {
    var s, x := shape + [n], index + [i];
    if shape == [] {
      assert s == [n] && x == [i];
      assert Product([n]) == n * Product([]);
      assert Rank([n], [i]) == i * Product([]) + Rank([], []);
    } else {
      assert s[1..] == shape[1..] + [n] && x[1..] == index[1..] + [i];
      RankAppends(shape[1..], index[1..], n, i);
      Regroup(shape[0], Product(shape[1..]), n);
      Regroup(index[0], Product(shape[1..]), n);
    }
  }

  lemma Regroup(a: nat, b: nat, c: nat)
    ensures a * b * c == a * (b * c)
  {
  }

  function Unrank(shape: seq<nat>, position: nat): (index: seq<nat>)
    requires position < Product(shape)
    ensures InBox(shape, index) && Rank(shape, index) == position
  {
    if shape == [] then
      []
    else
      var inner := Product(shape[1..]);
      DivisionFits(position, shape[0], inner);
      [position / inner] + Unrank(shape[1..], position % inner)
  }

  lemma DivisionFits(position: nat, outer: nat, inner: nat)
    requires position < outer * inner
    ensures inner > 0 && position / inner < outer
    ensures position == position / inner * inner + position % inner
  {
    if inner > 0 && outer <= position / inner {
      MulMonotone(outer, position / inner, inner);
    }
  }

  lemma MulMonotone(a: int, b: int, c: nat)
    requires a <= b
    ensures a * c <= b * c
  {
  }

  lemma {:induction false} RankBound(shape: seq<nat>, index: seq<nat>)
    requires InBox(shape, index)
    ensures Rank(shape, index) < Product(shape)
  {
    if shape == [] {
    } else {
      RankBound(shape[1..], index[1..]);
      MulMonotone(index[0] + 1, shape[0], Product(shape[1..]));
    }
  }

  /** Ranking is a bijection between the box and the positions 0 .. Product(shape). */
  lemma {:induction false} UnrankRank(shape: seq<nat>, index: seq<nat>)
    requires InBox(shape, index)
    ensures Rank(shape, index) < Product(shape)
    ensures Unrank(shape, Rank(shape, index)) == index
  {
    RankBound(shape, index);
    if shape == [] {
    } else {
      var inner := Product(shape[1..]);
      var rest := Rank(shape[1..], index[1..]);
      RankBound(shape[1..], index[1..]);
      UnrankRank(shape[1..], index[1..]);
      QuotientUnique(index[0], rest, inner);
    }
  }

  lemma QuotientUnique(quotient: nat, remainder: nat, divisor: nat)
    requires remainder < divisor
    ensures (quotient * divisor + remainder) / divisor == quotient
    ensures (quotient * divisor + remainder) % divisor == remainder
  {
    var n := quotient * divisor + remainder;
    assert n == n / divisor * divisor + n % divisor;
    if n / divisor < quotient {
      MulMonotone(n / divisor + 1, quotient, divisor);
    } else if quotient < n / divisor {
      MulMonotone(quotient + 1, n / divisor, divisor);
    }
  }

  lemma {:induction false} ProductPositive(shape: seq<nat>)
    ensures Product(shape) > 0 <==> forall i :: 0 <= i < |shape| ==> shape[i] > 0
  {
    if shape == [] {
    } else {
      ProductPositive(shape[1..]);
      if forall i :: 0 <= i < |shape| ==> shape[i] > 0 {
        assert forall i :: 0 <= i < |shape[1..]| ==> shape[1..][i] == shape[i + 1] > 0;
        MulMonotone(1, shape[0], Product(shape[1..]));
      } else if Product(shape[1..]) > 0 {
        assert forall i :: 1 <= i < |shape| ==> shape[i] == shape[1..][i - 1];
        assert shape[0] == 0;
      }
    }
  }

  ghost predicate Covers(larger: seq<nat>, smaller: seq<nat>) {
    |larger| == |smaller| && forall i :: 0 <= i < |smaller| ==> smaller[i] <= larger[i]
  }

  lemma {:induction false} ProductMonotone(larger: seq<nat>, smaller: seq<nat>)
    requires Covers(larger, smaller)
    ensures Product(smaller) <= Product(larger)
  {
    if smaller == [] {
    } else {
      ProductMonotone(larger[1..], smaller[1..]);
      MulMonotone(Product(smaller[1..]), Product(larger[1..]), smaller[0]);
      MulMonotone(smaller[0], larger[0], Product(larger[1..]));
    }
  }

  lemma EqualProducts(a: nat, b: nat, p: nat, q: nat)
    requires a <= b && p <= q
    requires 0 < b * q == a * p
    ensures a == b && p == q
  {
    MulMonotone(a, b, q);
    if p < q {
      MulMonotone(p + 1, q, a);
    } else if a < b {
      MulMonotone(a + 1, b, q);
    }
  }

  /** A box that covers a non-empty box of the same volume is that box. */
  lemma {:induction false} EqualVolumeBoxes(larger: seq<nat>, smaller: seq<nat>)
    requires Covers(larger, smaller)
    requires 0 < Product(larger) == Product(smaller)
    ensures larger == smaller
  {
    if smaller == [] {
    } else {
      ProductMonotone(larger[1..], smaller[1..]);
      EqualProducts(smaller[0], larger[0], Product(smaller[1..]), Product(larger[1..]));
      ProductPositive(larger);
      ProductPositive(larger[1..]);
      EqualVolumeBoxes(larger[1..], smaller[1..]);
      assert larger == [larger[0]] + larger[1..] == [smaller[0]] + smaller[1..] == smaller;
    }
  }
}
