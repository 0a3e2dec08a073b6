/**
 * The Monte Carlo path simulation of the VaR tab: `simulations` paths of
 * `time_predicted` prices each, every path starting again from the last
 * close and moving by `price = previous * (1 + daily_return)`.
 *
 * The seeded generator is the parameter `z`: z(k) is the k-th standard
 * normal sample it yields. `np.random.normal(0, vol)` returns
 * `0 + vol * z(k)`, and the nested loops consume the samples in order,
 * so day i of path r uses sample r * T + i.
 */
module Simulator {
  import RealArith

  /**
   * The daily return drawn as the k-th sample of the generator: the
   * sample scaled by the volatility, around mean 0. With volatility 0,
   * `np.random.normal(0, 0)`, the draw is exactly 0.
   */
  function Draw(vol: real, z: nat -> real, k: nat): real {
    0.0 + vol * z(k)
  }

  /**
   * `future_price = current_price * (1 + daily_return)`: a zero return
   * keeps the price, and a positive price stays positive exactly while
   * the return is above -100%.
   */
  function Step(price: real, dailyReturn: real): real {
    price * (1.0 + dailyReturn)
  }

  /** With volatility 0, `np.random.normal(0, 0)`, the draw is exactly 0. */
  lemma ZeroVolatilityDrawsZero(z: nat -> real, k: nat)
    ensures Draw(0.0, z, k) == 0.0
  {
  }

  /** A positive volatility keeps the sign of the standard sample. */
  lemma DrawSign(vol: real, z: nat -> real, k: nat)
    requires vol > 0.0
    ensures Draw(vol, z, k) > 0.0 <==> z(k) > 0.0
    ensures Draw(vol, z, k) < 0.0 <==> z(k) < 0.0
  {
    RealArith.MulSign(vol, z(k));
  }

  /** A zero return keeps the price; a positive price stays positive exactly while the return is above -100%. */
  lemma StepSign(price: real, dailyReturn: real)
    ensures Step(price, 0.0) == price
    ensures price > 0.0 ==> (Step(price, dailyReturn) > 0.0 <==> dailyReturn > -1.0)
  {
    RealArith.MulSign(price, 1.0 + dailyReturn);
  }

  /** The price the next day is derived from: the last one simulated, or the start. */
  function Current(prices: seq<real>, start: real): real {
    if |prices| == 0 then start else prices[|prices| - 1]
  }

  /** The first n prices of a path whose draws start at sample `base`. */
  function PathPrefix(start: real, vol: real, z: nat -> real, base: nat, n: nat): (p: seq<real>)
    ensures |p| == n
  {
    if n == 0 then []
    else
      var before := PathPrefix(start, vol, z, base, n - 1);
      before + [Step(Current(before, start), Draw(vol, z, base + n - 1))]
  }

  /** The first `sims` paths of `horizon` days each. */
  function PathsPrefix(start: real, vol: real, z: nat -> real, horizon: nat, sims: nat): (ps: seq<seq<real>>)
    ensures |ps| == sims
  {
    if sims == 0 then []
    else PathsPrefix(start, vol, z, horizon, sims - 1)
         + [PathPrefix(start, vol, z, (sims - 1) * horizon, horizon)]
  }

  /** Prices i and below of a path do not depend on how many days are simulated. */
  lemma {:induction false} PathPrefixExtends(start: real, vol: real, z: nat -> real, base: nat, n: nat, m: nat)
    requires n <= m
    ensures PathPrefix(start, vol, z, base, m)[..n] == PathPrefix(start, vol, z, base, n)
    decreases m
  {
    if n < m {
      PathPrefixExtends(start, vol, z, base, n, m - 1);
      var p := PathPrefix(start, vol, z, base, m);
      assert p[..m - 1] == PathPrefix(start, vol, z, base, m - 1);
      assert p[..n] == p[..m - 1][..n];
    } else {
      assert PathPrefix(start, vol, z, base, m)[..n] == PathPrefix(start, vol, z, base, m);
    }
  }

  /** Day i of a path is the previous day's price (or the start) times 1 plus draw base + i. */
  lemma PathAt(start: real, vol: real, z: nat -> real, base: nat, n: nat, i: nat)
    requires i < n
    ensures PathPrefix(start, vol, z, base, n)[i]
            == Step(Current(PathPrefix(start, vol, z, base, n)[..i], start), Draw(vol, z, base + i))
  {
    var p := PathPrefix(start, vol, z, base, n);
    PathPrefixExtends(start, vol, z, base, i + 1, n);
    PathPrefixExtends(start, vol, z, base, i, n);
    assert p[i] == p[..i + 1][i];
    assert p[..i + 1][..i] == p[..i];
  }

  /** Path r of the first `sims` paths is the path drawn from samples r * horizon onwards. */
  lemma {:induction false} PathsAt(start: real, vol: real, z: nat -> real, horizon: nat, sims: nat, r: nat)
    requires r < sims
    ensures PathsPrefix(start, vol, z, horizon, sims)[r] == PathPrefix(start, vol, z, r * horizon, horizon)
  {
    if r < sims - 1 {
      PathsAt(start, vol, z, horizon, sims - 1, r);
    }
  }

  /** Day i of path r follows the recurrence, with samples from r * horizon onwards. */
  lemma PathsElement(start: real, vol: real, z: nat -> real, horizon: nat, sims: nat, r: nat, i: nat)
    requires r < sims && i < horizon
    ensures |PathsPrefix(start, vol, z, horizon, sims)[r]| == horizon
    ensures PathsPrefix(start, vol, z, horizon, sims)[r][i]
            == Step(Current(PathsPrefix(start, vol, z, horizon, sims)[r][..i], start), Draw(vol, z, r * horizon + i))
  {
    PathsAt(start, vol, z, horizon, sims, r);
    PathAt(start, vol, z, r * horizon, horizon, i);
  }

  /** Every simulated path has `horizon` prices. */
  lemma PathsLengths(start: real, vol: real, z: nat -> real, horizon: nat, sims: nat)
    ensures forall r :: 0 <= r < sims ==> |PathsPrefix(start, vol, z, horizon, sims)[r]| == horizon
  {
    forall r | 0 <= r < sims
      ensures |PathsPrefix(start, vol, z, horizon, sims)[r]| == horizon
    {
      PathsAt(start, vol, z, horizon, sims, r);
    }
  }

  /** Every simulated path has `horizon` prices, each following the recurrence. */
  lemma PathsShape(start: real, vol: real, z: nat -> real, horizon: nat, sims: nat)
    ensures forall r :: 0 <= r < sims ==> |PathsPrefix(start, vol, z, horizon, sims)[r]| == horizon
    ensures forall r, i :: 0 <= r < sims && 0 <= i < horizon ==>
              PathsPrefix(start, vol, z, horizon, sims)[r][i]
              == Step(Current(PathsPrefix(start, vol, z, horizon, sims)[r][..i], start), Draw(vol, z, r * horizon + i))
  {
    PathsLengths(start, vol, z, horizon, sims);
    var paths := PathsPrefix(start, vol, z, horizon, sims);
    forall r | 0 <= r < sims
      ensures forall i :: 0 <= i < horizon ==>
                paths[r][i] == Step(Current(paths[r][..i], start), Draw(vol, z, r * horizon + i))
    {
      forall i | 0 <= i < horizon
        ensures paths[r][i] == Step(Current(paths[r][..i], start), Draw(vol, z, r * horizon + i))
      {
        PathsElement(start, vol, z, horizon, sims, r, i);
      }
    }
  }

  /** The samples of the paths after the first r start at r * horizon + horizon. */
  lemma NextOffset(r: nat, horizon: nat)
    ensures (r + 1) * horizon == r * horizon + horizon
  {
  }

  /**
   * The nested loops of the simulation. Every path has exactly `horizon`
   * prices, and price i of path r is the previous price of that path (or
   * `start` for i = 0) times 1 plus the draw r * horizon + i.
   */
  method SimulatePaths(start: real, vol: real, z: nat -> real, sims: nat, horizon: nat)
    returns (paths: seq<seq<real>>)
    ensures paths == PathsPrefix(start, vol, z, horizon, sims)
    ensures |paths| == sims
    ensures forall r :: 0 <= r < sims ==> |paths[r]| == horizon
    ensures forall r, i :: 0 <= r < sims && 0 <= i < horizon ==>
              paths[r][i] == Step(Current(paths[r][..i], start), Draw(vol, z, r * horizon + i))
  {
    paths := [];
    var k: nat := 0;   // how many samples the generator has handed out
    var r := 0;
    while r < sims
      invariant 0 <= r <= sims
      invariant k == r * horizon
      invariant paths == PathsPrefix(start, vol, z, horizon, r)
    {
      ghost var base := k;
      var priceList: seq<real> := [];
      var currentPrice := start;
      var i := 0;
      while i < horizon
        invariant 0 <= i <= horizon
        invariant k == base + i
        invariant priceList == PathPrefix(start, vol, z, base, i)
        invariant currentPrice == Current(priceList, start)
      {
        var dailyReturn := Draw(vol, z, k);
        k := k + 1;
        var futurePrice := Step(currentPrice, dailyReturn);
        priceList := priceList + [futurePrice];
        currentPrice := futurePrice;
        i := i + 1;
      }
      paths := paths + [priceList];
      NextOffset(r, horizon);
      r := r + 1;
    }
    PathsShape(start, vol, z, horizon, sims);
  }

  /** A path whose draws are all zero stays at the start price, whatever its length. */
  lemma {:induction false} FlatPath(start: real, vol: real, z: nat -> real, base: nat, n: nat)
    requires forall k :: base <= k < base + n ==> Draw(vol, z, k) == 0.0
    ensures forall i :: 0 <= i < n ==> PathPrefix(start, vol, z, base, n)[i] == start
  {
    if n > 0 {
      FlatPath(start, vol, z, base, n - 1);
      var before := PathPrefix(start, vol, z, base, n - 1);
      assert Draw(vol, z, base + n - 1) == 0.0;
      assert Current(before, start) == start;
    }
  }

  /** If every draw is zero every price of every path equals the start price. */
  lemma FlatPaths(start: real, vol: real, z: nat -> real, horizon: nat, sims: nat)
    requires forall k :: Draw(vol, z, k) == 0.0
    ensures forall r :: 0 <= r < sims ==> |PathsPrefix(start, vol, z, horizon, sims)[r]| == horizon
    ensures forall r, i :: 0 <= r < sims && 0 <= i < horizon ==>
              PathsPrefix(start, vol, z, horizon, sims)[r][i] == start
  {
    PathsShape(start, vol, z, horizon, sims);
    forall r, i | 0 <= r < sims && 0 <= i < horizon
      ensures |PathsPrefix(start, vol, z, horizon, sims)[r]| == horizon
      ensures PathsPrefix(start, vol, z, horizon, sims)[r][i] == start
    {
      PathsAt(start, vol, z, horizon, sims, r);
      FlatPath(start, vol, z, r * horizon, horizon);
    }
  }

  /** A positive start stays positive while no draw is -100% or worse; nothing clamps it. */
  lemma {:induction false} PositivePath(start: real, vol: real, z: nat -> real, base: nat, n: nat)
    requires start > 0.0
    requires forall k :: base <= k < base + n ==> Draw(vol, z, k) > -1.0
    ensures forall i :: 0 <= i < n ==> PathPrefix(start, vol, z, base, n)[i] > 0.0
  {
    if n > 0 {
      PositivePath(start, vol, z, base, n - 1);
      var before := PathPrefix(start, vol, z, base, n - 1);
      StepSign(Current(before, start), Draw(vol, z, base + n - 1));
    }
  }

  /** A path reads only its own `n` samples: paths do not share results through the generator. */
  lemma {:induction false} PathUsesOwnDraws(start: real, vol: real, z1: nat -> real, z2: nat -> real, base: nat, n: nat)
    requires forall k :: base <= k < base + n ==> z1(k) == z2(k)
    ensures PathPrefix(start, vol, z1, base, n) == PathPrefix(start, vol, z2, base, n)
  {
    if n > 0 {
      PathUsesOwnDraws(start, vol, z1, z2, base, n - 1);
      assert Draw(vol, z1, base + n - 1) == Draw(vol, z2, base + n - 1);
    }
  }

  /** Path r is determined by samples r * horizon up to (r + 1) * horizon alone. */
  lemma PathsUseOwnDraws(start: real, vol: real, z1: nat -> real, z2: nat -> real, horizon: nat, sims: nat, r: nat)
    requires r < sims
    requires forall k :: r * horizon <= k < r * horizon + horizon ==> z1(k) == z2(k)
    ensures PathsPrefix(start, vol, z1, horizon, sims)[r] == PathsPrefix(start, vol, z2, horizon, sims)[r]
  {
    PathsAt(start, vol, z1, horizon, sims, r);
    PathsAt(start, vol, z2, horizon, sims, r);
    PathUsesOwnDraws(start, vol, z1, z2, r * horizon, horizon);
  }
}
