/** Sums, maxima and argmins over sequences of reals: the `sum`, `max` and
    strict-`<` scanning loops of the optimizer. */
module Aggregates {
  import opened Records

  function Sum(xs: seq<real>): real {
    if |xs| == 0 then 0.0 else xs[0] + Sum(xs[1..])
  }

  /** Every element divided by `d`. */
  function Divided(xs: seq<real>, d: real): (r: seq<real>)
    requires d != 0.0
    ensures |r| == |xs|
    ensures forall i :: 0 <= i < |xs| ==> r[i] == xs[i] / d
  {
    seq(|xs|, i requires 0 <= i < |xs| => xs[i] / d)
  }

  /** Dividing every element divides the sum. */
  lemma {:induction false} SumDivided(xs: seq<real>, d: real)
    requires d != 0.0
    ensures Sum(Divided(xs, d)) == Sum(xs) / d
  {
    if |xs| > 0 {
      assert Divided(xs, d)[1..] == Divided(xs[1..], d);
      SumDivided(xs[1..], d);
      assert Divided(xs, d)[0] == xs[0] / d;
      assert xs[0] / d + Sum(xs[1..]) / d == (xs[0] + Sum(xs[1..])) / d;
    }
  }

  /** Element-wise sum of two sequences of equal length. */
  function Plus(xs: seq<real>, ys: seq<real>): (r: seq<real>)
    requires |xs| == |ys|
    ensures |r| == |xs|
    ensures forall i :: 0 <= i < |xs| ==> r[i] == xs[i] + ys[i]
  {
    seq(|xs|, i requires 0 <= i < |xs| => xs[i] + ys[i])
  }

  /** Summation is linear. */
  lemma {:induction false} SumPlus(xs: seq<real>, ys: seq<real>)
    requires |xs| == |ys|
    ensures Sum(Plus(xs, ys)) == Sum(xs) + Sum(ys)
  {
    if |xs| > 0 {
      assert Plus(xs, ys)[1..] == Plus(xs[1..], ys[1..]);
      SumPlus(xs[1..], ys[1..]);
    }
  }

  /** Every element divided by the total: the shares add up to 1. */
  lemma SharesSumToOne(xs: seq<real>)
    requires Sum(xs) != 0.0
    ensures Sum(Divided(xs, Sum(xs))) == 1.0
  {
    var s := Sum(xs);
    SumDivided(xs, s);
    assert s / s == 1.0;
  }

  lemma {:induction false} SumOfZeros(xs: seq<real>)
    requires forall i :: 0 <= i < |xs| ==> xs[i] == 0.0
    ensures Sum(xs) == 0.0
  {
    if |xs| > 0 {
      SumOfZeros(xs[1..]);
    }
  }

  /** A sum of non-negative terms is non-negative. */
  lemma {:induction false} SumNonNegative(xs: seq<real>)
    requires forall i :: 0 <= i < |xs| ==> xs[i] >= 0.0
    ensures Sum(xs) >= 0.0
  {
    if |xs| > 0 {
      SumNonNegative(xs[1..]);
    }
  }

  /** No non-negative term exceeds the sum. */
  lemma {:induction false} TermBelowSum(xs: seq<real>, j: nat)
    requires forall i :: 0 <= i < |xs| ==> xs[i] >= 0.0
    requires j < |xs|
    ensures xs[j] <= Sum(xs)
  {
    if j == 0 {
      SumNonNegative(xs[1..]);
    } else {
      TermBelowSum(xs[1..], j - 1);
    }
  }

  /** A non-empty sum of positive terms is positive. */
  lemma {:induction false} SumPositive(xs: seq<real>)
    requires |xs| > 0
    requires forall i :: 0 <= i < |xs| ==> xs[i] > 0.0
    ensures Sum(xs) > 0.0
  {
    if |xs| > 1 {
      SumPositive(xs[1..]);
    }
  }

  /** Python's `max(values) if values else 0.0`. */
  function MaxOf(xs: seq<real>): (m: real)
    ensures |xs| == 0 ==> m == 0.0
    ensures forall i :: 0 <= i < |xs| ==> xs[i] <= m
    ensures |xs| > 0 ==> exists i :: 0 <= i < |xs| && xs[i] == m
  {
    if |xs| == 0 then 0.0
    else if |xs| == 1 then xs[0]
    else
      var rest := MaxOf(xs[1..]);
      if xs[0] >= rest then xs[0] else rest
  }

  /** A left-to-right scan that keeps a candidate and replaces it only when
      a later element is strictly smaller: the position of the first
      minimum, or None for the empty sequence. */
  function FirstMin(xs: seq<real>): (r: Option<nat>)
    ensures r.None? <==> |xs| == 0
    ensures r.Some? ==> r.value < |xs|
    ensures r.Some? ==> forall j :: 0 <= j < |xs| ==> xs[r.value] <= xs[j]
    ensures r.Some? ==> forall j :: 0 <= j < r.value ==> xs[r.value] < xs[j]
  {
    if |xs| == 0 then None
    else
      var p := FirstMin(xs[..|xs| - 1]);
      if p.None? || xs[|xs| - 1] < xs[p.value] then Some(|xs| - 1) else p
  }
}
