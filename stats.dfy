/**
 * Descriptive statistics used by the analyzer: sum, arithmetic mean (numpy.mean, taken as an
 * exact real), minimum and maximum (Python's builtin min/max on a non-empty list).
 */
module Stats {

  function Sum(xs: seq<real>): real
  {
    if xs == [] then 0.0 else xs[0] + Sum(xs[1..])
  }

  /** numpy.mean of a non-empty list, without floating-point rounding. */
  function Mean(xs: seq<real>): real
    requires |xs| > 0
  {
    Sum(xs) / (|xs| as real)
  }

  /** The integers of a Python list as reals, for averaging. */
  function AsReals(xs: seq<int>): seq<real>
  {
    seq(|xs|, i requires 0 <= i < |xs| => xs[i] as real)
  }

  /** Python's min() of a non-empty list. */
  function Min(xs: seq<int>): (m: int)
    requires |xs| > 0
    ensures m in xs
    ensures forall i :: 0 <= i < |xs| ==> m <= xs[i]
  {
    if |xs| == 1 then xs[0]
    else
      var rest := Min(xs[1..]);
      if xs[0] <= rest then xs[0] else rest
  }

  /** Python's max() of a non-empty list. */
  function Max(xs: seq<int>): (m: int)
    requires |xs| > 0
    ensures m in xs
    ensures forall i :: 0 <= i < |xs| ==> xs[i] <= m
  {
    if |xs| == 1 then xs[0]
    else
      var rest := Max(xs[1..]);
      if xs[0] >= rest then xs[0] else rest
  }

  /** A sum of values that all lie in [lo, hi] lies between n * lo and n * hi. */
  lemma {:induction false} SumBounds(xs: seq<real>, lo: real, hi: real)
    requires forall i :: 0 <= i < |xs| ==> lo <= xs[i] <= hi
    ensures (|xs| as real) * lo <= Sum(xs) <= (|xs| as real) * hi
  {
    if xs != [] {
      SumBounds(xs[1..], lo, hi);
      assert (|xs| as real) * lo == lo + (|xs[1..]| as real) * lo;
      assert (|xs| as real) * hi == hi + (|xs[1..]| as real) * hi;
    }
  }

  /** The mean of values that all lie in [lo, hi] lies in [lo, hi]. */
  lemma MeanWithin(xs: seq<real>, lo: real, hi: real)
    requires |xs| > 0
    requires forall i :: 0 <= i < |xs| ==> lo <= xs[i] <= hi
    ensures lo <= Mean(xs) <= hi
  {
    SumBounds(xs, lo, hi);
    DivBounds(Sum(xs), |xs| as real, lo, hi);
  }

  /** Dividing by a positive count keeps bounds that hold for the total. */
  lemma DivBounds(total: real, n: real, lo: real, hi: real)
    requires n > 0.0 && lo * n <= total <= hi * n
    ensures lo <= total / n <= hi
  {
  }

  /** A sum of non-negative values is positive exactly when one of them is. */
  lemma {:induction false} SumPositiveIff(xs: seq<real>)
    requires forall i :: 0 <= i < |xs| ==> xs[i] >= 0.0
    ensures Sum(xs) >= 0.0
    ensures Sum(xs) > 0.0 <==> exists i :: 0 <= i < |xs| && xs[i] > 0.0
  {
    if xs != [] {
      SumPositiveIff(xs[1..]);
      if exists i :: 0 <= i < |xs[1..]| && xs[1..][i] > 0.0 {
        var i :| 0 <= i < |xs[1..]| && xs[1..][i] > 0.0;
        assert xs[i + 1] > 0.0;
      }
      if exists i :: 0 <= i < |xs| && xs[i] > 0.0 {
        var i :| 0 <= i < |xs| && xs[i] > 0.0;
        if i > 0 {
          assert xs[1..][i - 1] > 0.0;
        }
      }
    }
  }

  /** The mean of non-negative values is non-negative, and positive exactly when some value is. */
  lemma MeanPositiveIff(xs: seq<real>)
    requires |xs| > 0
    requires forall i :: 0 <= i < |xs| ==> xs[i] >= 0.0
    ensures Mean(xs) >= 0.0
    ensures Mean(xs) > 0.0 <==> exists i :: 0 <= i < |xs| && xs[i] > 0.0
  {
    SumPositiveIff(xs);
    var n := |xs| as real;
    assert Mean(xs) * n == Sum(xs);
  }

  /** The mean is exact: the mean of 3, 5 and 7 tokens is 5.0, not a rounded float. */
  lemma MeanExample()
    ensures Mean([3.0, 5.0, 7.0]) == 5.0
  {
    assert Sum([3.0, 5.0, 7.0]) == 15.0;
  }
}
