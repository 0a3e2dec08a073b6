/**
 * Return and volatility estimation of the Monte Carlo tab: the daily
 * fractional returns of the close-price history (`pct_change`) and their
 * population variance (`np.std` squared, divisor N).
 *
 * Python produces NaN or inf where this model produces an error value:
 * a zero price divides by zero, and fewer than two prices leave no return
 * to average.
 */
module Estimator {
  import opened Wrappers

  datatype EstimateError =
    | ZeroPrice          // a price that is divided by is 0: the return is inf or NaN
    | InsufficientData   // no return at all: np.std of an empty (all-NaN) series is NaN

  /** True when no price that serves as a divisor is zero. */
  predicate NonZeroDivisors(p: seq<real>) {
    forall i :: 0 <= i < |p| - 1 ==> p[i] != 0.0
  }

  /** `close_price.pct_change()` with the leading NaN dropped. */
  function DailyReturns(p: seq<real>): (r: Result<seq<real>, EstimateError>)
    ensures r.Ok? <==> NonZeroDivisors(p)
    ensures r.Ok? ==> |r.value| == if |p| == 0 then 0 else |p| - 1
    ensures r.Ok? ==> forall i :: 0 <= i < |r.value| ==> r.value[i] * p[i] == p[i + 1] - p[i]
  {
    if !NonZeroDivisors(p) then Err(ZeroPrice)
    else if |p| == 0 then Ok([])
    else Ok(seq(|p| - 1, i requires 0 <= i < |p| - 1 => (p[i + 1] - p[i]) / p[i]))
  }

  /** Return i is the relative change from price i to price i + 1. */
  lemma DailyReturnAt(p: seq<real>, i: nat)
    requires NonZeroDivisors(p) && i < |p| - 1
    ensures DailyReturns(p).value[i] == (p[i + 1] - p[i]) / p[i]
  {
  }

  function Sum(s: seq<real>): real {
    if s == [] then 0.0 else s[0] + Sum(s[1..])
  }

  /** Sum of squared deviations from `m`. */
  function SumSquares(s: seq<real>, m: real): real {
    if s == [] then 0.0 else (s[0] - m) * (s[0] - m) + SumSquares(s[1..], m)
  }

  function Mean(s: seq<real>): real
    requires |s| > 0
  {
    Sum(s) / |s| as real
  }

  /** The variance np.std takes the root of: divisor N (ddof = 0), not N - 1. */
  function PopulationVariance(s: seq<real>): (r: Result<real, EstimateError>)
    ensures r.Ok? <==> |s| > 0
  {
    if |s| == 0 then Err(InsufficientData)
    else Ok(SumSquares(s, Mean(s)) / |s| as real)
  }

  /** The squared daily volatility of a close-price history. */
  function Estimate(p: seq<real>): (r: Result<real, EstimateError>)
    ensures r.Ok? <==> |p| >= 2 && NonZeroDivisors(p)
  {
    var rs :- DailyReturns(p);
    PopulationVariance(rs)
  }

  /** `vol` is a value `np.std` may return for the variance `v`. */
  ghost predicate IsStd(vol: real, v: real) {
    vol >= 0.0 && vol * vol == v
  }

  lemma Square(d: real)
    ensures d * d >= 0.0
  {
    if d < 0.0 {
      var e := -d;
      assert e * e > 0.0;
      assert d * d == e * e;
    }
  }

  lemma {:induction false} SumSquaresNonNegative(s: seq<real>, m: real)
    ensures SumSquares(s, m) >= 0.0
  {
    if s != [] {
      Square(s[0] - m);
      SumSquaresNonNegative(s[1..], m);
    }
  }

  lemma {:induction false} SumConstant(s: seq<real>, c: real)
    requires forall i :: 0 <= i < |s| ==> s[i] == c
    ensures Sum(s) == |s| as real * c
    ensures SumSquares(s, c) == 0.0
  {
    if s != [] {
      SumConstant(s[1..], c);
    }
  }

  /** The population variance is never negative, so a volatility exists. */
  lemma VarianceNonNegative(s: seq<real>)
    requires |s| > 0
    ensures PopulationVariance(s).value >= 0.0
  {
    SumSquaresNonNegative(s, Mean(s));
  }

  /** Equal returns have zero variance: their mean is that common value. */
  lemma EqualReturnsZeroVariance(s: seq<real>)
    requires |s| > 0
    requires forall i :: 0 <= i < |s| ==> s[i] == s[0]
    ensures Mean(s) == s[0]
    ensures PopulationVariance(s) == Ok(0.0)
  {
    SumConstant(s, s[0]);
  }

  /** Dividing by N: two returns 1 and -1 have variance 1 (N - 1 would give 2). */
  lemma PopulationNotSample()
    ensures PopulationVariance([1.0, -1.0]) == Ok(1.0)
  {
    assert Sum([1.0, -1.0]) == 0.0;
    assert SumSquares([1.0, -1.0], 0.0) == 2.0;
  }

  /** A flat price history has all-zero returns and zero variance. */
  lemma ConstantHistory(p: seq<real>, c: real)
    requires |p| >= 2 && c != 0.0
    requires forall i :: 0 <= i < |p| ==> p[i] == c
    ensures DailyReturns(p).Ok?
    ensures forall i :: 0 <= i < |DailyReturns(p).value| ==> DailyReturns(p).value[i] == 0.0
    ensures Estimate(p) == Ok(0.0)
  {
    var rs := DailyReturns(p).value;
    forall i | 0 <= i < |rs| ensures rs[i] == 0.0 {
      assert rs[i] * c == 0.0;
    }
    EqualReturnsZeroVariance(rs);
  }
}
