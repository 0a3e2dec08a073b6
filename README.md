# Financial dashboard: Monte Carlo Value-at-Risk, quote flattening and symbol parsing

This project models the computing core of a Streamlit stock dashboard and
proves properties of that model. The dashboard itself is Python; the model
is Dafny. The core has five parts:

- **Return and volatility estimation** (module `Estimator`). The daily
  returns are `pct_change` of the close prices. The volatility is
  `np.std` of those returns, the population form with divisor N. A zero
  divisor price gives inf or NaN in Python; here that is the error
  `ZeroPrice`. A history with fewer than two prices has no return at all,
  so its std is NaN; here that is the error `InsufficientData`. The model
  computes the variance exactly. The volatility is a parameter that is
  tied to the variance by `IsStd`: it is non-negative and it squares to
  the variance.
- **Path simulation** (module `Simulator`). This is the tab's nested
  loops. Every path starts again at the last close, and each day takes
  `price * (1 + daily_return)`. The seeded generator is a parameter
  `z: nat -> real`, the stream of standard normal samples. A draw
  `np.random.normal(0, vol)` is `0 + vol * z(k)`. Day i of path r uses
  sample `r * horizon + i`, because of the order in which the loops
  consume the samples. The specification functions are `PathPrefix` and
  `PathsPrefix`, and the method `SimulatePaths` is proved equal to them.
- **Terminal prices, the 5th percentile and the Value-at-Risk** (module
  `Risk`). The terminal prices are the last row of the frame, one per
  path. The percentile is `np.percentile` with numpy's default linear
  method: sort the sample, take the rank `h = (n - 1) * q / 100`, and
  interpolate between order statistics `floor(h)` and `floor(h) + 1`,
  the second one clipped to n - 1. The Value-at-Risk is the last close
  minus the percentile, reported as it is with no clamping, so it is
  negative when the percentile lies above the start.
- **The whole tab** (module `MonteCarlo`). The tab is specified by
  `Tab4`. `RunTab4` runs the same steps the way the dashboard does, using
  the simulation method, and is proved equal to `Tab4`.
- **Quote-summary flattening** (module `QuoteInfo`). A JSON dictionary of
  modules is turned into a single dictionary, in the way the quote helper
  class's `info` property does it. A field whose value is a dictionary
  contributes its `'raw'` entry, or nothing when it has none. Any other
  value is copied as it is. A later field with the same name overwrites
  an earlier one. A module that is not a dictionary raises
  AttributeError in Python; here it gives `Err(ModuleNotADict)`. A JSON
  object is an association list in insertion order, the order in which
  Python iterates a dictionary. A Python dictionary holds each key once,
  so the loops only ever see lists with distinct keys: `IsDict` states
  that, and `WellFormed` states it of the module dictionary and of every
  module in it. `Flatten` and `Flattened` require `WellFormed`.
- **Symbol parsing** (module `Symbols`). The comparison tab parses its
  input with `[s.strip() for s in stock_symbols.split(",")]`. `Split` and
  `Strip` follow Python's `str.split` with a one-character separator and
  `str.strip()`. The whitespace is exactly Python's `str.isspace` set,
  written out by code point.

`Wrappers` holds `Option` and `Result`. `RealArith` holds small lemmas
about products of reals that the proofs share.

The volatility is `np.std(daily_return)` with numpy's default ddof = 0.
That is the population standard deviation, not the sample one. The model
follows the code: `Estimator.PopulationNotSample` pins the divisor N down
on a concrete input.

## Model

| member | source | states |
|---|---|---|
| Estimator.DailyReturns | Final_individual_proyect/Finalproyect.py:361-362 | the returns exist exactly when no divisor price is zero; there is one fewer return than prices; return i times price i is the change from price i to price i + 1 |
| Estimator.DailyReturnAt | Final_individual_proyect/Finalproyect.py:362 | return i is (p[i+1] - p[i]) / p[i] |
| Estimator.PopulationVariance | Final_individual_proyect/Finalproyect.py:363 | the variance is defined exactly for a non-empty sample (NaN for an empty one) |
| Estimator.Estimate | Final_individual_proyect/Finalproyect.py:360-363 | a variance is obtained exactly when the history has at least two prices and no zero divisor |
| Estimator.IsStd | Final_individual_proyect/Finalproyect.py:363 | the standard deviation of a variance: a non-negative real that squares to it |
| Estimator.VarianceNonNegative | Final_individual_proyect/Finalproyect.py:363 | the population variance is never negative, so a real volatility exists |
| Estimator.EqualReturnsZeroVariance | Final_individual_proyect/Finalproyect.py:363 | equal returns have that value as mean and zero variance |
| Estimator.PopulationNotSample | Final_individual_proyect/Finalproyect.py:363 | the divisor is N (ddof = 0): returns 1 and -1 have variance 1, not 2 |
| Estimator.ConstantHistory | Final_individual_proyect/Finalproyect.py:361-363 | a flat non-zero history has all-zero returns and variance 0 |
| Simulator.PathPrefix | Final_individual_proyect/Finalproyect.py:375-388 | a path prefix of n days has exactly n prices |
| Simulator.PathsPrefix | Final_individual_proyect/Finalproyect.py:372-393 | the first `sims` paths are exactly `sims` columns |
| Simulator.PathPrefixExtends | Final_individual_proyect/Finalproyect.py:378-388 | simulating more days leaves the earlier prices of a path unchanged |
| Simulator.PathAt | Final_individual_proyect/Finalproyect.py:376-388 | day i is the previous price, or the start for day 0, times 1 plus draw base + i |
| Simulator.PathsAt | Final_individual_proyect/Finalproyect.py:372-380 | path r is the path drawn from samples r * horizon onwards |
| Simulator.PathsElement | Final_individual_proyect/Finalproyect.py:372-388 | day i of path r follows the price recurrence with sample r * horizon + i |
| Simulator.PathsShape | Final_individual_proyect/Finalproyect.py:372-393 | every path has `horizon` prices, and all of them follow the recurrence |
| Simulator.SimulatePaths | Final_individual_proyect/Finalproyect.py:372-393 | the nested loops produce `sims` paths of `horizon` prices; price i of path r is the previous price (or the last close) times 1 plus draw r * horizon + i |
| Simulator.FlatPath | Final_individual_proyect/Finalproyect.py:378-388 | with all draws zero a path stays at its start price |
| Simulator.FlatPaths | Final_individual_proyect/Finalproyect.py:372-393 | with all draws zero every price of every path equals the last close |
| Simulator.PositivePath | Final_individual_proyect/Finalproyect.py:383 | from a positive start, prices stay positive while no draw is -100% or worse; nothing clamps them |
| Simulator.Draw | Final_individual_proyect/Finalproyect.py:380 | `np.random.normal(0, vol)` is 0 plus `vol` times the stream's sample k; its properties are the two lemmas below |
| Simulator.ZeroVolatilityDrawsZero | Final_individual_proyect/Finalproyect.py:380 | `np.random.normal(0, 0)` draws exactly 0 |
| Simulator.DrawSign | Final_individual_proyect/Finalproyect.py:380 | with a positive volatility a draw is positive exactly when its sample is, and negative exactly when its sample is |
| Simulator.Step | Final_individual_proyect/Finalproyect.py:383 | one day moves the price by the factor 1 plus the daily return; its properties are in StepSign |
| Simulator.StepSign | Final_individual_proyect/Finalproyect.py:383 | a zero return leaves the price as it is; from a positive price the next price is positive exactly when the return is above -1 |
| Simulator.PathUsesOwnDraws | Final_individual_proyect/Finalproyect.py:378-388 | a path depends only on its own `n` samples |
| Simulator.PathsUseOwnDraws | Final_individual_proyect/Finalproyect.py:372-393 | path r depends only on samples r * horizon up to (r + 1) * horizon |
| Risk.Terminals | Final_individual_proyect/Finalproyect.py:407 | the last row exists exactly when there is a path and no path is empty; it has one entry per path, which is that path's last price |
| Risk.Insert | Final_individual_proyect/Finalproyect.py:409 | inserting into a sorted sample keeps it sorted, adds one element, and keeps the multiset plus x |
| Risk.SortAscending | Final_individual_proyect/Finalproyect.py:409 | the sorted sample is sorted and a permutation of the input |
| Risk.Min | Final_individual_proyect/Finalproyect.py:409 | the minimum is an element and bounds all elements from below |
| Risk.Max | Final_individual_proyect/Finalproyect.py:409 | the maximum is an element and bounds all elements from above |
| Risk.Rank | Final_individual_proyect/Finalproyect.py:409 | the rank (n - 1) q / 100 lies between 0 and n - 1 |
| Risk.Below | Final_individual_proyect/Finalproyect.py:409 | the lower order statistic index is within the sample |
| Risk.Above | Final_individual_proyect/Finalproyect.py:409 | the upper index is at least the lower one and within the sample |
| Risk.Lerp | Final_individual_proyect/Finalproyect.py:409 | numpy's linear interpolation `a + (b - a) g` between two neighbouring order statistics; LerpBetween and LerpMonotone state its range and monotonicity |
| Risk.LerpBetween | Final_individual_proyect/Finalproyect.py:409 | interpolation at a fraction in [0, 1] stays between its two ends |
| Risk.LerpMonotone | Final_individual_proyect/Finalproyect.py:409 | interpolation rises with the fraction |
| Risk.Interpolate | Final_individual_proyect/Finalproyect.py:409 | numpy's linear method on a sorted sample: interpolate at the fraction of the rank between order statistics `floor(h)` and `floor(h) + 1` (clipped); InterpolateBounds states its range |
| Risk.Percentile | Final_individual_proyect/Finalproyect.py:409 | the percentile is defined exactly for a non-empty sample and q in [0, 100] |
| Risk.ValueAtRisk | Final_individual_proyect/Finalproyect.py:410 | the risk is defined exactly when the percentile is; risk plus percentile is the start; the risk is negative exactly when the percentile is above the start |
| Risk.SortedEnds | Final_individual_proyect/Finalproyect.py:409 | the sorted sample starts at the minimum and ends at the maximum |
| Risk.SameElements | Final_individual_proyect/Finalproyect.py:409 | sequences with the same multiset have the same members |
| Risk.InterpolateBounds | Final_individual_proyect/Finalproyect.py:409 | interpolating a sorted sample stays between its first and last entries |
| Risk.PercentileBounds | Final_individual_proyect/Finalproyect.py:409 | the percentile lies between the sample's minimum and maximum |
| Risk.PercentileOfOne | Final_individual_proyect/Finalproyect.py:409 | the percentile of one value is that value |
| Risk.PercentileOfConstant | Final_individual_proyect/Finalproyect.py:409 | the percentile of a constant sample is the constant |
| Risk.RankMonotone | Final_individual_proyect/Finalproyect.py:409 | a higher q gives a higher rank |
| Risk.PercentileMonotone | Final_individual_proyect/Finalproyect.py:409 | a higher q never gives a lower percentile |
| Risk.ValueAtRiskBounds | Final_individual_proyect/Finalproyect.py:407-410 | the risk lies between start minus the best terminal price and start minus the worst |
| Risk.ValueAtRiskMonotone | Final_individual_proyect/Finalproyect.py:408-410 | a lower percentile (a higher confidence) never reports a smaller risk |
| MonteCarlo.IsDailyVolatility | Final_individual_proyect/Finalproyect.py:363 | `daily_volatility = np.std(daily_return)`: whenever the history has a variance, the volatility is its standard deviation (`IsStd`) |
| MonteCarlo.LastClose | Final_individual_proyect/Finalproyect.py:376 | `close_price[-1]`, the start of every path and, at line 410, the price the risk is measured from |
| MonteCarlo.Tab4 | Final_individual_proyect/Finalproyect.py:360-410 | the tab as a specification: the empty-history and undefined-volatility errors, the paths from the last close, the terminal prices, the 5th-percentile cutoff and `Risk.ValueAtRisk` of it; its properties are the lemmas below |
| MonteCarlo.RunTab4 | Final_individual_proyect/Finalproyect.py:360-410 | the tab's steps, run with the simulation loops, give exactly the specified report or error |
| MonteCarlo.Tab4Succeeds | Final_individual_proyect/Finalproyect.py:360-410 | the tab produces a figure exactly when the history has at least two prices, no zero divisor, and there are paths and days to simulate |
| MonteCarlo.Tab4Report | Final_individual_proyect/Finalproyect.py:372-410 | a report starts from the last close, has `sims` paths of `horizon` prices and one terminal price per path (its last price), a cutoff within the terminal prices, and a risk of start minus cutoff |
| MonteCarlo.SingleSimulation | Final_individual_proyect/Finalproyect.py:407-409 | with one simulation the cutoff is that path's last price |
| MonteCarlo.ConstantHistoryZeroRisk | Final_individual_proyect/Finalproyect.py:360-410 | for any volatility tied to a flat history, the variance is 0 and so is the volatility; every simulated price is the last close, and the cutoff is the close with risk exactly 0, whatever the generator yields |
| MonteCarlo.ReplayDraw | Final_individual_proyect/Finalproyect.py:380 | a unit-volatility draw from the replay stream is the replayed return |
| MonteCarlo.ReturnInverse | Final_individual_proyect/Finalproyect.py:362 | one step with the return from a to b lands on b |
| MonteCarlo.ReplayPrefix | Final_individual_proyect/Finalproyect.py:362 | replaying the first n returns rebuilds the first n prices after the first |
| MonteCarlo.ReturnsReplayHistory | Final_individual_proyect/Finalproyect.py:362 | returns and the price recurrence are inverse: fed the history's own returns, a path from the first price rebuilds the history |
| QuoteInfo.WellFormed | Final_individual_proyect/Finalproyect.py:103-104 | the dictionaries the two loops iterate have distinct keys: the module dictionary and every module that is a dictionary |
| QuoteInfo.Entries | Final_individual_proyect/Finalproyect.py:103-104 | the order in which the nested loops visit the fields: every field of the first module, then of the next, and so on |
| QuoteInfo.Lookup | Final_individual_proyect/Finalproyect.py:107 | a key is found exactly when the list holds it, and what is found is the value of its last occurrence |
| QuoteInfo.LookupStored | Final_individual_proyect/Finalproyect.py:107 | in a dictionary, looking up a stored key finds the value stored with it |
| QuoteInfo.Contribution | Final_individual_proyect/Finalproyect.py:105-111 | a non-dictionary value contributes itself; a dictionary contributes exactly when it has a 'raw' entry, and then that entry's value |
| QuoteInfo.Put | Final_individual_proyect/Finalproyect.py:105-111 | a contributing field stores its contribution under its name; a dictionary without 'raw' changes nothing; every other key keeps its presence and value |
| QuoteInfo.Fill | Final_individual_proyect/Finalproyect.py:103-111 | filling keeps every key already present and only adds keys of the visited fields |
| QuoteInfo.Flattened | Final_individual_proyect/Finalproyect.py:103-111 | the flattening succeeds exactly when every module is a dictionary |
| QuoteInfo.Visit | Final_individual_proyect/Finalproyect.py:105-111 | one field updates the result by its contribution: a dictionary's 'raw' entry if it has one, nothing if not, any other value as it is |
| QuoteInfo.VisitModule | Final_individual_proyect/Finalproyect.py:104-111 | the inner loop leaves the result filled with the module's fields in order |
| QuoteInfo.Flatten | Final_individual_proyect/Finalproyect.py:103-111 | on a well-formed module dictionary the nested loops give the fill of all fields, module after module, or the error when a module is not a dictionary |
| QuoteInfo.FillConcat | Final_individual_proyect/Finalproyect.py:103-111 | filling with one run of fields and then another is filling with both runs in order |
| QuoteInfo.FillAppend | Final_individual_proyect/Finalproyect.py:104-111 | one more visited field updates the result by that field's contribution |
| QuoteInfo.EntriesAppend | Final_individual_proyect/Finalproyect.py:103-104 | one more module appends its fields to those visited |
| QuoteInfo.FillKeys | Final_individual_proyect/Finalproyect.py:103-111 | a key is in the result exactly when some visited field of that name contributes a value |
| QuoteInfo.FillLast | Final_individual_proyect/Finalproyect.py:103-111 | the value under a key is the contribution of the last contributing field of that name; a dictionary without 'raw' leaves the earlier value |
| QuoteInfo.FillOther | Final_individual_proyect/Finalproyect.py:105-111 | a field leaves every other key untouched |
| QuoteInfo.FillDict | Final_individual_proyect/Finalproyect.py:104-111 | filling from one dictionary holds a key exactly when the key is there and its value contributes, and then holds that contribution |
| QuoteInfo.OneModule | Final_individual_proyect/Finalproyect.py:103-111 | a single module that is a dictionary is well formed and flattens to the fill of its fields |
| QuoteInfo.LastModuleWins | Final_individual_proyect/Finalproyect.py:103-111 | a contributing field of the last module decides its key, whatever earlier modules hold |
| Symbols.IsSpace | Final_individual_proyect/Finalproyect.py:427 | the characters `str.strip()` removes: Python's `str.isspace` set by code point; StripLeading, StripTrailing and Strip state what stripping does with it |
| Symbols.Split | Final_individual_proyect/Finalproyect.py:427 | split gives one more piece than separators; no piece holds the separator; joining the pieces gives back the input |
| Symbols.StripLeading | Final_individual_proyect/Finalproyect.py:427 | the result is a suffix, what was removed is all whitespace, and the result does not start with whitespace |
| Symbols.StripTrailing | Final_individual_proyect/Finalproyect.py:427 | the result is a prefix, what was removed is all whitespace, and the result does not end with whitespace |
| Symbols.Strip | Final_individual_proyect/Finalproyect.py:427 | the result has no whitespace at either end and is the middle of the input between all-whitespace ends |
| Symbols.ParseSymbols | Final_individual_proyect/Finalproyect.py:427 | there is one more symbol than commas; no symbol holds a comma or starts or ends with whitespace; symbol i is piece i stripped |
| Symbols.StripKeepsOut | Final_individual_proyect/Finalproyect.py:427 | stripping never brings in a character that was not there |
| Symbols.SplitPiece | Final_individual_proyect/Finalproyect.py:427 | a string without the separator splits into itself |
| Symbols.SplitPieceThenSep | Final_individual_proyect/Finalproyect.py:427 | a piece followed by the separator becomes one entry, and splitting goes on after it |
| Symbols.SplitJoin | Final_individual_proyect/Finalproyect.py:427 | splitting undoes joining separator-free pieces |
| Symbols.StripSurrounded | Final_individual_proyect/Finalproyect.py:427 | strip undoes surrounding a trimmed string with whitespace |
| Symbols.StripTyped | Final_individual_proyect/Finalproyect.py:427 | a symbol typed after ", " strips back to itself |
| Symbols.ParseTyped | Final_individual_proyect/Finalproyect.py:421-427 | typing trimmed comma-free symbols as "AAPL, MSFT" parses back to exactly those symbols |

## Left out

- Network access (the Yahoo Finance quote and history requests, cookies and crumbs): I/O. The history is a parameter, and so is the decoded quote-summary result.
- The extraction `info['quoteSummary']['result'][0]` (lines 99-101) and the placeholder `info = {}` (line 79) that the response overwrites: they only index the HTTP response. The model starts from the decoded module dictionary; the accumulator `ret = {}` (line 80) is the empty map that `QuoteInfo.Flatten` and `QuoteInfo.Flattened` start from.
- Every Streamlit widget, chart and caching decorator, and the other tabs: presentation. `simulations` and `time_predicted` are parameters, and the selectbox choices are not enforced.
- The random generator's seed (123) and its normal distribution: the samples are the parameter `z`. No claim is made about their distribution.
- Floating point: the model computes with exact reals. NaN and inf results are the error values described above. Rounding of displayed values (`np.round`) is not modelled.
- The square root in `np.std`: Estimator.Estimate stops at the variance, and the volatility is a parameter tied to it by `IsStd`.
- numpy's two-formula linear interpolation (it switches from `a + (b - a) g` to `b - (b - a)(1 - g)` at g >= 0.5): the two are equal over the reals, and only the first is modelled.
- pandas concat mechanics and index alignment of `simulated_df` (names "Sim" + r, NaN padding of ragged columns): all columns have the same length, so the frame is the sequence of paths.
- QuoteInfo.Flatten: the result is a map, so the insertion order of the keys of `ret` is not modelled.
- Repeated keys in the JSON text: the decoder keeps the last one, and the model starts from the decoded dictionary, so `QuoteInfo.Flatten` requires `WellFormed` (distinct keys at both levels).
- Estimator.DailyReturns: any zero divisor price is the error ZeroPrice. In pandas a zero followed by another zero gives a NaN return (0/0), and `np.std` on a Series skips NaN, so such a run of zeros is dropped rather than poisoning the result. Only a zero followed by a non-zero price (an infinite return) makes the volatility NaN. The model does not separate the two cases.
- Estimator.EqualReturnsZeroVariance: only the direction from equal returns to zero variance is proved. The converse, that zero variance forces equal returns, is not stated.
- Nothing is left out of the range check on q: the error PercentileOutOfRange cannot arise in the tab, which always asks for 5, but `np.percentile` performs the check before anything else, so it is modelled.
- The guard `if stock_symbols:` of the comparison tab: every input parses, and the tab only parses a non-empty one.
