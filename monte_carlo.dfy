/**
 * The Monte Carlo tab as one computation: estimate the volatility of the
 * close-price history, simulate the paths from the last close, take
 * every path's last price and report the 5th percentile and the
 * Value-at-Risk at 95% confidence.
 */
module MonteCarlo {
  import opened Wrappers
  import Estimator
  import Simulator
  import Risk
  import RealArith

  datatype Tab4Error =
    | EmptyHistory          // `close_price[-1]` of an empty history
    | UndefinedVolatility   // np.std is NaN: fewer than two prices, or a zero price
    | NoSimulatedPrices     // no simulations or no days: the frame has no last row

  /** What the tab computes: the paths it plots and the figures it prints. */
  datatype Report = Report(
    start: real,                // the last close, where every path starts
    paths: seq<seq<real>>,      // the simulated paths, one per simulation
    terminal: seq<real>,        // the last price of each path
    cutoff: real,               // the 5th percentile of the terminal prices
    valueAtRisk: real)          // start minus cutoff, unclamped

  /** `vol` is `np.std(daily_return)`: a non-negative square root of the estimated variance. */
  ghost predicate IsDailyVolatility(prices: seq<real>, vol: real) {
    Estimator.Estimate(prices).Ok? ==> Estimator.IsStd(vol, Estimator.Estimate(prices).value)
  }

  function LastClose(prices: seq<real>): real
    requires |prices| > 0
  {
    prices[|prices| - 1]
  }

  /** The specification of the tab: `z` is the seeded generator's stream of standard normal samples. */
  function Tab4(prices: seq<real>, vol: real, z: nat -> real, sims: nat, horizon: nat): Result<Report, Tab4Error>
    requires IsDailyVolatility(prices, vol)
  {
    if |prices| == 0 then Err(EmptyHistory)
    else if Estimator.Estimate(prices).Err? then Err(UndefinedVolatility)
    else
      var start := LastClose(prices);
      var paths := Simulator.PathsPrefix(start, vol, z, horizon, sims);
      match Risk.Terminals(paths)
      case Err(_) => Err(NoSimulatedPrices)
      case Ok(terminal) =>
        var cutoff := Risk.Percentile(terminal, Risk.VaRPercentile).value;
        var valueAtRisk := Risk.ValueAtRisk(start, terminal, Risk.VaRPercentile).value;
        Ok(Report(start, paths, terminal, cutoff, valueAtRisk))
  }

  /** The tab's computation as the source runs it, with the simulation loops. */
  method RunTab4(prices: seq<real>, vol: real, z: nat -> real, sims: nat, horizon: nat)
    returns (res: Result<Report, Tab4Error>)
    requires IsDailyVolatility(prices, vol)
    ensures res == Tab4(prices, vol, z, sims, horizon)
  {
    if |prices| == 0 {
      return Err(EmptyHistory);
    }
    var variance := Estimator.Estimate(prices);
    if variance.Err? {
      return Err(UndefinedVolatility);
    }
    var start := prices[|prices| - 1];
    var paths := Simulator.SimulatePaths(start, vol, z, sims, horizon);
    var ending := Risk.Terminals(paths);
    if ending.Err? {
      return Err(NoSimulatedPrices);
    }
    var cutoff := Risk.Percentile(ending.value, Risk.VaRPercentile);
    var valueAtRisk := Risk.ValueAtRisk(start, ending.value, Risk.VaRPercentile);
    res := Ok(Report(start, paths, ending.value, cutoff.value, valueAtRisk.value));
  }

  /** The tab fails exactly when the history is too short or has a zero price, or nothing is simulated. */
  lemma Tab4Succeeds(prices: seq<real>, vol: real, z: nat -> real, sims: nat, horizon: nat)
    requires IsDailyVolatility(prices, vol)
    ensures Tab4(prices, vol, z, sims, horizon).Ok?
            <==> |prices| >= 2 && Estimator.NonZeroDivisors(prices) && sims > 0 && horizon > 0
  {
    if |prices| >= 2 && Estimator.NonZeroDivisors(prices) {
      var paths := Simulator.PathsPrefix(LastClose(prices), vol, z, horizon, sims);
      Simulator.PathsShape(LastClose(prices), vol, z, horizon, sims);
      if sims > 0 && horizon == 0 {
        assert |paths[0]| == 0;
      }
    }
  }

  /**
   * A successful run has `sims` paths of `horizon` prices from the last
   * close, one terminal price per path, an interpolated cutoff within
   * the terminal prices and a risk of start minus cutoff.
   */
  lemma Tab4Report(prices: seq<real>, vol: real, z: nat -> real, sims: nat, horizon: nat)
    requires IsDailyVolatility(prices, vol)
    requires Tab4(prices, vol, z, sims, horizon).Ok?
    ensures var rep := Tab4(prices, vol, z, sims, horizon).value;
      && rep.start == prices[|prices| - 1]
      && |rep.paths| == sims
      && (forall r :: 0 <= r < sims ==> |rep.paths[r]| == horizon)
      && |rep.terminal| == sims
      && (forall r :: 0 <= r < sims ==> rep.terminal[r] == rep.paths[r][horizon - 1])
      && Risk.Min(rep.terminal) <= rep.cutoff <= Risk.Max(rep.terminal)
      && rep.valueAtRisk == rep.start - rep.cutoff
  {
    var rep := Tab4(prices, vol, z, sims, horizon).value;
    Simulator.PathsShape(rep.start, vol, z, horizon, sims);
    Risk.PercentileBounds(rep.terminal, Risk.VaRPercentile);
  }

  /** With one simulation the cutoff is that path's last price. */
  lemma SingleSimulation(prices: seq<real>, vol: real, z: nat -> real, horizon: nat)
    requires IsDailyVolatility(prices, vol)
    requires Tab4(prices, vol, z, 1, horizon).Ok?
    ensures Tab4(prices, vol, z, 1, horizon).value.cutoff == Tab4(prices, vol, z, 1, horizon).value.paths[0][horizon - 1]
  {
    var rep := Tab4(prices, vol, z, 1, horizon).value;
    Tab4Report(prices, vol, z, 1, horizon);
    assert rep.terminal == [rep.terminal[0]];
    Risk.PercentileOfOne(rep.terminal[0], Risk.VaRPercentile);
  }

  /**
   * A flat history has zero variance, so its volatility is zero; every
   * path then stays at the last close and the risk is exactly zero,
   * whatever the generator yields and however long the horizon.
   */
  lemma ConstantHistoryZeroRisk(prices: seq<real>, c: real, vol: real, z: nat -> real, sims: nat, horizon: nat)
    requires |prices| >= 2 && c != 0.0
    requires forall i :: 0 <= i < |prices| ==> prices[i] == c
    requires IsDailyVolatility(prices, vol)
    requires sims > 0 && horizon > 0
    ensures Estimator.Estimate(prices) == Ok(0.0) && vol == 0.0
    ensures Tab4(prices, vol, z, sims, horizon).Ok?
    ensures |Tab4(prices, vol, z, sims, horizon).value.paths| == sims
    ensures forall r :: 0 <= r < sims ==> |Tab4(prices, vol, z, sims, horizon).value.paths[r]| == horizon
    ensures forall r, i :: 0 <= r < sims && 0 <= i < horizon ==>
              Tab4(prices, vol, z, sims, horizon).value.paths[r][i] == c
    ensures Tab4(prices, vol, z, sims, horizon).value.cutoff == c
    ensures Tab4(prices, vol, z, sims, horizon).value.valueAtRisk == 0.0
  {
    Estimator.ConstantHistory(prices, c);
    RealArith.RootOfZero(vol);
    assert LastClose(prices) == c;
    forall k: nat ensures Simulator.Draw(0.0, z, k) == 0.0 {
      Simulator.ZeroVolatilityDrawsZero(z, k);
    }
    Simulator.FlatPaths(c, 0.0, z, horizon, sims);
    Tab4Succeeds(prices, 0.0, z, sims, horizon);
    Tab4Report(prices, 0.0, z, sims, horizon);
    var rep := Tab4(prices, 0.0, z, sims, horizon).value;
    assert forall r :: 0 <= r < sims ==> rep.terminal[r] == c;
    Risk.PercentileOfConstant(rep.terminal, c, Risk.VaRPercentile);
  }

  /** A generator stream that hands out the given returns, then zeros. */
  function Replay(rs: seq<real>): nat -> real {
    (k: nat) => if k < |rs| then rs[k] else 0.0
  }

  lemma ReplayDraw(rs: seq<real>, k: nat)
    requires k < |rs|
    ensures Simulator.Draw(1.0, Replay(rs), k) == rs[k]
  {
  }

  lemma ReturnInverse(a: real, b: real)
    requires a != 0.0
    ensures Simulator.Step(a, (b - a) / a) == b
  {
    var r := (b - a) / a;
    assert r * a == b - a;
    assert a * (1.0 + r) == a + a * r;
  }

  lemma {:induction false} ReplayPrefix(p: seq<real>, n: nat)
    requires n < |p| && Estimator.NonZeroDivisors(p)
    ensures Simulator.PathPrefix(p[0], 1.0, Replay(Estimator.DailyReturns(p).value), 0, n) == p[1..n + 1]
  {
    var rs := Estimator.DailyReturns(p).value;
    if n > 0 {
      ReplayPrefix(p, n - 1);
      var before := Simulator.PathPrefix(p[0], 1.0, Replay(rs), 0, n - 1);
      assert Simulator.Current(before, p[0]) == p[n - 1];
      ReplayDraw(rs, n - 1);
      Estimator.DailyReturnAt(p, n - 1);
      ReturnInverse(p[n - 1], p[n]);
      assert p[1..n + 1] == p[1..n] + [p[n]];
    }
  }

  /**
   * Returns and simulation are inverse: fed the history's own daily
   * returns with unit volatility, the path recurrence rebuilds the
   * history from its first price.
   */
  lemma ReturnsReplayHistory(p: seq<real>)
    requires |p| > 0 && Estimator.NonZeroDivisors(p)
    ensures Simulator.PathPrefix(p[0], 1.0, Replay(Estimator.DailyReturns(p).value), 0, |p| - 1) == p[1..]
  {
    var n := |p| - 1;
    ReplayPrefix(p, n);
    assert p[1..n + 1] == p[1..];
  }
}
