/**
 * Terminal-price extraction, `np.percentile` with its default linear
 * interpolation, and the Value-at-Risk figure of the Monte Carlo tab.
 */
module Risk {
  import opened Wrappers
  import opened RealArith

  datatype RiskError =
    | NoSimulatedPrices      // the simulated frame has no last row: IndexError
    | EmptyDistribution      // np.percentile of an empty array
    | PercentileOutOfRange   // ValueError: percentiles must be in the range [0, 100]

  /** The percentile the dashboard reports: 5, for 95% confidence. */
  const VaRPercentile: real := 5.0

  /**
   * `simulated_df.iloc[-1:, :].values[0, ]`: the last price of every path,
   * in path order. The frame has no last row when there are no paths or
   * the paths are empty.
   */
  function Terminals(paths: seq<seq<real>>): (r: Result<seq<real>, RiskError>)
    ensures r.Ok? <==> |paths| > 0 && forall k :: 0 <= k < |paths| ==> |paths[k]| > 0
    ensures r.Ok? ==> |r.value| == |paths|
    ensures r.Ok? ==> forall k :: 0 <= k < |paths| ==> r.value[k] == paths[k][|paths[k]| - 1]
  {
    if |paths| == 0 || exists k :: 0 <= k < |paths| && |paths[k]| == 0 then Err(NoSimulatedPrices)
    else Ok(seq(|paths|, k requires 0 <= k < |paths| => paths[k][|paths[k]| - 1]))
  }

  predicate Sorted(s: seq<real>) {
    forall i, j :: 0 <= i <= j < |s| ==> s[i] <= s[j]
  }

  /** Inserts `x` into a sorted sequence. */
  function Insert(x: real, s: seq<real>): (r: seq<real>)
    requires Sorted(s)
    ensures |r| == |s| + 1
    ensures r[0] == if s == [] || x <= s[0] then x else s[0]
    ensures Sorted(r)
    ensures multiset(r) == multiset(s) + multiset{x}
  {
    if s == [] then [x]
    else if x <= s[0] then
      SortedCons(x, s);
      [x] + s
    else
      assert s == [s[0]] + s[1..];
      var rest := Insert(x, s[1..]);
      SortedCons(s[0], rest);
      [s[0]] + rest
  }

  lemma SortedCons(x: real, s: seq<real>)
    requires Sorted(s) && (s == [] || x <= s[0])
    ensures Sorted([x] + s)
  {
  }

  /** The ascending order numpy puts the sample in before reading ranks. */
  function SortAscending(v: seq<real>): (r: seq<real>)
    ensures Sorted(r)
    ensures multiset(r) == multiset(v)
  {
    if v == [] then []
    else
      assert v == [v[0]] + v[1..];
      Insert(v[0], SortAscending(v[1..]))
  }

  function Min(v: seq<real>): (m: real)
    requires |v| > 0
    ensures m in v
    ensures forall k :: 0 <= k < |v| ==> m <= v[k]
  {
    if |v| == 1 then v[0]
    else
      var rest := Min(v[1..]);
      assert forall k :: 1 <= k < |v| ==> v[k] == v[1..][k - 1];
      if v[0] <= rest then v[0] else rest
  }

  function Max(v: seq<real>): (m: real)
    requires |v| > 0
    ensures m in v
    ensures forall k :: 0 <= k < |v| ==> v[k] <= m
  {
    if |v| == 1 then v[0]
    else
      var rest := Max(v[1..]);
      assert forall k :: 1 <= k < |v| ==> v[k] == v[1..][k - 1];
      if v[0] >= rest then v[0] else rest
  }

  /** The fractional rank `(n - 1) * q / 100` lies within the sample. */
  function Rank(n: nat, q: real): (h: real)
    requires n > 0 && 0.0 <= q <= 100.0
    ensures 0.0 <= h <= (n - 1) as real
  {
    RankWithin(n, q);
    (n - 1) as real * q / 100.0
  }

  lemma RankWithin(n: nat, q: real)
    requires n > 0 && 0.0 <= q <= 100.0
    ensures 0.0 <= (n - 1) as real * q / 100.0 <= (n - 1) as real
  {
    var m := (n - 1) as real;
    MulNonNegative(m, q);
    MulMonotone(m, q, 100.0);
  }

  /** The order statistics numpy interpolates between: floor of the rank, and the next one (clipped). */
  function Below(n: nat, q: real): (lo: nat)
    requires n > 0 && 0.0 <= q <= 100.0
    ensures lo < n
  {
    Rank(n, q).Floor
  }

  function Above(n: nat, q: real): (hi: nat)
    requires n > 0 && 0.0 <= q <= 100.0
    ensures Below(n, q) <= hi < n
  {
    if Below(n, q) + 1 < n then Below(n, q) + 1 else n - 1
  }

  /** Linear interpolation between `a` and `b` at fraction `g`. */
  function Lerp(a: real, b: real, g: real): real {
    a + (b - a) * g
  }

  lemma LerpBetween(a: real, b: real, g: real)
    requires a <= b && 0.0 <= g <= 1.0
    ensures a <= Lerp(a, b, g) <= b
  {
    MulNonNegative(b - a, g);
    MulAtMost(b - a, g);
  }

  lemma LerpMonotone(a: real, b: real, g1: real, g2: real)
    requires a <= b && g1 <= g2
    ensures Lerp(a, b, g1) <= Lerp(a, b, g2)
  {
    MulMonotone(b - a, g1, g2);
  }

  /** The `(n - 1) * q / 100`-th order statistic of a sorted sample, linearly interpolated. */
  function Interpolate(s: seq<real>, q: real): real
    requires |s| > 0 && 0.0 <= q <= 100.0
  {
    var h := Rank(|s|, q);
    var lo := Below(|s|, q);
    Lerp(s[lo], s[Above(|s|, q)], h - lo as real)
  }

  /** `np.percentile(v, q)`, method 'linear'. */
  function Percentile(v: seq<real>, q: real): (r: Result<real, RiskError>)
    ensures r.Ok? <==> |v| > 0 && 0.0 <= q <= 100.0
  {
    if q < 0.0 || q > 100.0 then Err(PercentileOutOfRange)
    else if |v| == 0 then Err(EmptyDistribution)
    else Ok(Interpolate(SortAscending(v), q))
  }

  /** `close_price[-1] - np.percentile(ending_price, q)`, reported as it is. */
  function ValueAtRisk(start: real, terminal: seq<real>, q: real): (r: Result<real, RiskError>)
    ensures r.Ok? <==> Percentile(terminal, q).Ok?
    ensures r.Ok? ==> r.value + Percentile(terminal, q).value == start
    ensures r.Ok? ==> (r.value < 0.0 <==> Percentile(terminal, q).value > start)
  {
    var cutoff :- Percentile(terminal, q);
    Ok(start - cutoff)
  }

  /** The first and last entries of the sorted sample are its minimum and maximum. */
  lemma SortedEnds(v: seq<real>)
    requires |v| > 0
    ensures |SortAscending(v)| == |v|
    ensures SortAscending(v)[0] == Min(v)
    ensures SortAscending(v)[|v| - 1] == Max(v)
  {
    var s := SortAscending(v);
    assert |s| == |multiset(s)| == |multiset(v)| == |v|;
    SameElements(s, v, s[0]);
    SameElements(s, v, Min(v));
    SameElements(s, v, s[|s| - 1]);
    SameElements(s, v, Max(v));
    var j :| 0 <= j < |s| && s[j] == Min(v);
    var j' :| 0 <= j' < |s| && s[j'] == Max(v);
    assert s[0] <= s[j] && s[j'] <= s[|s| - 1];
  }

  /** Two sequences with the same multiset have the same elements. */
  lemma SameElements(a: seq<real>, b: seq<real>, x: real)
    requires multiset(a) == multiset(b)
    ensures x in a <==> x in b
  {
    assert x in a <==> x in multiset(a);
    assert x in b <==> x in multiset(b);
  }

  /** Interpolating a sorted sample stays between its first and last entries. */
  lemma InterpolateBounds(s: seq<real>, q: real)
    requires |s| > 0 && 0.0 <= q <= 100.0 && Sorted(s)
    ensures s[0] <= Interpolate(s, q) <= s[|s| - 1]
  {
    var n := |s|;
    var h := Rank(n, q);
    var lo, hi := Below(n, q), Above(n, q);
    assert lo as real <= h < lo as real + 1.0;
    assert s[0] <= s[lo] <= s[hi] <= s[n - 1];
    LerpBetween(s[lo], s[hi], h - lo as real);
  }

  /** The interpolated percentile never leaves the range of the sample. */
  lemma PercentileBounds(v: seq<real>, q: real)
    requires |v| > 0 && 0.0 <= q <= 100.0
    ensures Min(v) <= Percentile(v, q).value <= Max(v)
  {
    var s := SortAscending(v);
    SortedEnds(v);
    InterpolateBounds(s, q);
    assert Percentile(v, q).value == Interpolate(s, q);
  }

  /** With a single simulated path the percentile is that path's terminal price. */
  lemma PercentileOfOne(x: real, q: real)
    requires 0.0 <= q <= 100.0
    ensures Percentile([x], q) == Ok(x)
  {
    PercentileBounds([x], q);
  }

  /** A sample whose values all equal `c` has every percentile equal to `c`. */
  lemma PercentileOfConstant(v: seq<real>, c: real, q: real)
    requires |v| > 0 && 0.0 <= q <= 100.0
    requires forall k :: 0 <= k < |v| ==> v[k] == c
    ensures Percentile(v, q) == Ok(c)
  {
    PercentileBounds(v, q);
  }

  lemma RankMonotone(n: nat, q1: real, q2: real)
    requires n > 0 && 0.0 <= q1 <= q2 <= 100.0
    ensures Rank(n, q1) <= Rank(n, q2)
  {
    MulMonotone((n - 1) as real, q1, q2);
  }

  /** A higher percentile is never below a lower one. */
  lemma PercentileMonotone(v: seq<real>, q1: real, q2: real)
    requires |v| > 0 && 0.0 <= q1 <= q2 <= 100.0
    ensures Percentile(v, q1).value <= Percentile(v, q2).value
  {
    var s := SortAscending(v);
    var n := |s|;
    assert n == |v| by { SortedEnds(v); }
    var h1, h2 := Rank(n, q1), Rank(n, q2);
    var lo1, lo2 := Below(n, q1), Below(n, q2);
    var hi1, hi2 := Above(n, q1), Above(n, q2);
    RankMonotone(n, q1, q2);
    assert lo1 <= lo2;
    assert lo1 as real <= h1 < lo1 as real + 1.0;
    assert lo2 as real <= h2 < lo2 as real + 1.0;
    if lo1 == lo2 {
      LerpMonotone(s[lo1], s[hi1], h1 - lo1 as real, h2 - lo2 as real);
    } else {
      LerpBetween(s[lo1], s[hi1], h1 - lo1 as real);
      LerpBetween(s[lo2], s[hi2], h2 - lo2 as real);
      assert hi1 <= lo2;
      assert s[hi1] <= s[lo2];
    }
  }

  /** The reported risk lies between the start price minus the best and minus the worst outcome. */
  lemma ValueAtRiskBounds(start: real, terminal: seq<real>, q: real)
    requires |terminal| > 0 && 0.0 <= q <= 100.0
    ensures start - Max(terminal) <= ValueAtRisk(start, terminal, q).value <= start - Min(terminal)
  {
    PercentileBounds(terminal, q);
  }

  /** A deeper tail (a lower percentile, a higher confidence) never reports a smaller risk. */
  lemma ValueAtRiskMonotone(start: real, terminal: seq<real>, q1: real, q2: real)
    requires |terminal| > 0 && 0.0 <= q1 <= q2 <= 100.0
    ensures ValueAtRisk(start, terminal, q2).value <= ValueAtRisk(start, terminal, q1).value
  {
    PercentileMonotone(terminal, q1, q2);
  }
}
