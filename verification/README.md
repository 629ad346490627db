# Parameter-sweep backtester core, in Dafny

This project models the computational core of a small C++ backtester that
sweeps the hyperparameters of one trading strategy over a series of daily
percent changes:

- `net_growth` compounds a run of daily changes into a running growth series;
- `algo` simulates the strategy: a portfolio worth 1 on day 0 whose daily
  change is scaled by `multiplier` while in the market and by
  `out_multiplier` while out of it; after a warm-up of `lookback_days` days the
  strategy leaves the market when the compounded growth of a trailing window
  dips to `pullout_thresh` and re-enters it when that growth reaches
  `backin_thresh` (the re-entry check runs last, so it wins a tie);
- `testAlgoParams` runs the strategy once per parameter combination (the
  `i`-th combination takes the `i`-th entry of every parameter list) and keeps
  each run's terminal value;
- `getParamRange` builds evenly spaced candidate values for one parameter;
- `getSplitIndexes` cuts the candidate list into near-equal contiguous chunks
  for the parallel driver, which walks the returned ends from index 0;
- `findBestResult` reduces scored candidates to the best one.

Modules follow the two source files: `Series` (shared sequence arithmetic),
`SplitIndexes`, `BestResult` and `ParamSweep` (include/Financial.h), and
`Strategy` (src/main.cpp).

Every `double` is an exact `real`. The trailing window
`subVector(upper_bound, lower_bound)` belongs to the matrix library
(Matrix.h is not part of this model), so whether it contains day `i` itself
is a parameter, `Strategy.WindowBounds`, and every property of `algo` is
proved for both readings. The algorithm handed to `testAlgoParams` is a
function parameter. The strategy's parameter tuple
`tuple<double, double, double, double, int>` is the datatype
`ParamSweep.Params`.

`testAlgoParams` pairs the `i`-th entries of the parameter lists (it forms no
Cartesian product), and `findBestResult` on an empty list returns the default
parameters with score 0 (see "## Findings" for the corrected reduction).

## Model

| member | source | states |
|---|---|---|
| SplitIndexes.GroupSizes | include/Financial.h:125-137 | there are `groups` sizes; size `i` is `length / groups`, plus one exactly when `i < length % groups` |
| SplitIndexes.GetSplitIndexes | include/Financial.h:123-149 | `groups` split indexes, non-decreasing, each within `[0, length]`, the last equal to `length` |
| SplitIndexes.SplitIndexesClosedForm | include/Financial.h:123-149 | index `k` equals `(k + 1) * (length / groups) + min(k + 1, length % groups)` |
| SplitIndexes.SplitGroupSize | include/Financial.h:127-145 | consecutive indexes (the first measured from 0) differ by `length / groups`, one more exactly for the first `length % groups` groups |
| SplitIndexes.Chunks | include/Financial.h:67-75 | walking the ends from `prevIndex` yields one chunk per end, chunk `k` spanning from the previous end to `ends[k]`, the slice of the commented-out line 71 |
| SplitIndexes.FlattenChunks | include/Financial.h:67-75 | the chunks of a walk, concatenated in order, are exactly the items from the start index to the last end: no gap, no overlap |
| SplitIndexes.PartitionLaw | include/Financial.h:67-75 | walking the split indexes of a list from 0 gives `groups` chunks of sizes `q` or `q + 1` (the first `r` larger) whose concatenation is the whole list |
| BestResult.FindBestResult | include/Financial.h:42-57 | the reported score is at least 0 and at least every score; with some positive score the pair is the first candidate holding the largest score; with none it is the default parameters with score 0 |
| BestResult.FirstMaxIsReturned | include/Financial.h:47-55 | whenever position `k` holds the first occurrence of a positive largest score, exactly `results[k]` is returned |
| BestResult.EarliestTieWins | include/Financial.h:50-54 | for `[(A, 0.5), (B, 2.0), (C, 2.0)]` the earlier tied candidate `(B, 2.0)` is returned |
| BestResult.NonPositiveScoresMisreported | include/Financial.h:45-46 | with a single candidate scoring -1 the reduction reports `(defaults, 0)`, while the first largest score is the candidate itself |
| BestResult.BestCandidate | include/Financial.h:42-57 | corrected reduction: no result exactly for no candidates, otherwise the first candidate holding the largest score, of any sign |
| BestResult.BestCandidateIsFirstMax | include/Financial.h:47-55 | conversely, the first position of the largest score is the one the corrected reduction returns |
| BestResult.BestCandidateAgrees | include/Financial.h:42-57 | when some score is positive, the reduction as written and the corrected one return the same pair |
| ParamSweep.TestAlgoParams | include/Financial.h:101-121 | one value per combination, the count being the length of the first list; value `i` is the last element of the algorithm's output on the `i`-th entry of every list |
| ParamSweep.GetParamRange | include/Financial.h:151-163 | `num` values for `num >= 2`, else one; the last is `high`; value `i < num - 1` is `low + delta * i` with `delta = (high - low) / (num - 1)` |
| ParamSweep.ParamRangeEvenlySpaced | include/Financial.h:155-160 | every consecutive pair, including the forced last element, is `delta` apart |
| ParamSweep.ParamRangeBounded | include/Financial.h:151-163 | with `low <= high` the range is non-decreasing and stays within `[low, high]` |
| Strategy.NetGrowth | src/main.cpp:127-142 | one growth entry per day: `g[0] = 1 + x[0]`, `g[k] = g[k - 1] * (1 + x[k])` |
| Strategy.NetGrowthIsCompounded | src/main.cpp:132-139 | entry `k` of the growth is the product of `1 + x[j]` over `j <= k` |
| Strategy.Run | src/main.cpp:95-122 | after `k` days the loop holds `k` values starting at 1, the state equals the transitions applied so far, and the newest value uses the state left by the day before |
| Strategy.RunPrefix | src/main.cpp:100-122 | later days never rewrite earlier values |
| Strategy.Algo | src/main.cpp:89-125 | one value per day, day 0 worth 1 |
| Strategy.AlgoStep | src/main.cpp:107-110 | day `i` multiplies the previous value by `1 + multiplier * x[i]` if the state after day `i - 1` is in the market, else by `1 + out_multiplier * x[i]` |
| Strategy.InMarketStep | src/main.cpp:112-115 | the state after day `i` is the transition of the state before it under day `i`'s two checks |
| Strategy.TransitionTable | src/main.cpp:112-115 | a firing back-in check enters the market whatever the pull-out check says; otherwise a firing pull-out check leaves it; otherwise the state is kept |
| Strategy.DaySignalTable | src/main.cpp:102-115 | no check fires while `i <= lookback_days`; afterwards pull-out fires iff some window growth is at most `pullout_thresh`, back-in iff some is at least `backin_thresh` |
| Strategy.BackInWins | src/main.cpp:112-115 | both thresholds crossed on one post-warm-up day leaves the strategy in the market |
| Strategy.WarmUpStaysInMarket | src/main.cpp:97-115 | the state after every day `i <= lookback_days` is in the market |
| Strategy.AlgoWarmUp | src/main.cpp:97-110 | days `1 .. lookback_days + 1` are all scaled by `multiplier` |
| Strategy.AlgoSingleDay | src/main.cpp:95-100 | a one-day series yields `[1]` |
| Strategy.AlgoEqualMultipliers | src/main.cpp:107-110 | with `multiplier == out_multiplier` day `k` is worth the product of `1 + multiplier * x[j]` over days `1..k` |
| Strategy.AlgoIgnoresThresholds | src/main.cpp:107-115 | with equal multipliers the values depend on neither the thresholds, the lookback, nor the window reading |
| Strategy.AlgoWithinWarmUp | src/main.cpp:100-115 | a series of at most `lookback_days + 2` days ends at the product of `1 + multiplier * x[j]` over days `1..` |
| Strategy.AlgoConstantRate | src/main.cpp:107-110 | a constant daily change `c` under equal multipliers `m` ends at `(1 + m * c)^(n - 1)` |
| Strategy.FiveDayExample | src/main.cpp:89-125 | changes `[0, 0.01, -0.05, 0.02, 0.03]`, multiplier 1, lookback 2, thresholds 0.9 / 1.1 end at `1.01 * 0.95 * 1.02 * 1.03` |
| Strategy.Sweep | src/main.cpp:65-66 | `algo` run through `testAlgoParams`, for combinations whose lookback keeps every window non-empty: value `i` is the terminal portfolio value of `algo` under the `i`-th combination |

## Left out

- `loadCache`: file-system reads and writes of the price cache.
- `testAlgoParamsParallel`: thread-count probing, `async` futures and their
  collection are concurrency. The live loop at include/Financial.h:67-75
  updates `prevIndex` but never reads it, and line 73 passes an undeclared
  `params`; the chunk `[prevIndex, index)` is taken only in the commented-out
  lines 71 and 83. `SplitIndexes.Chunks` models that commented-out slice, the
  walk the loop evidently intends.
- The `for_` / `num` compile-time loop of `testAlgoParams`: it copies field
  `j` of combination `i` for every `j`, which is `ParamLists.Combo`.
- `main`: CSV loading, random parameter generation, timing, printing, and the
  final `max_element` selection.
- IEEE-754 rounding, overflow to infinity and NaN: every `double` is a `real`.
  In particular `getParamRange` with `num == 1` divides by zero in the source;
  the quotient is never used, and the model returns `[high]` as the source does.
- The matrix library: `isVector` (a sequence is always a vector, so `algo`'s
  and `net_growth`'s exceptions cannot arise), `result[-1]` (read as the last
  element), `min()`/`max()` (the sequence extremes) and the bounds of
  `subVector` (the `WindowBounds` parameter).
- `in_market_prev`: written each day and never read.
- Strategy.Algo: requires `Strategy.WellFormed`, a lookback that keeps every
  trailing window non-empty (at least 1 when the window excludes day `i`, at
  least 0 when it includes it); with a shorter or negative lookback the source
  reads the growth of an empty window, whose behaviour belongs to the matrix
  library.
- Strategy.Sweep: requires every combination to be `Strategy.WellFormed`, but
  src/main.cpp:49 draws `lookback_days` uniformly from `0..20`, so the
  program's own sweep almost surely holds lookback 0. Under the reading where
  the window excludes day `i` (`ExcludesToday`), lookback 0 makes
  `subVector(i, i)` at line 105 empty, and `net_growth` then writes `growth[0]`
  of a zero-size matrix at line 134; what that does belongs to the matrix
  library, so such combinations are outside the model. Under the reading where
  the window includes day `i`, every lookback from the program's generator is
  covered.
- ParamSweep.TestAlgoParams: fixed to the five-field parameter tuple of the
  program rather than any variadic list of parameter types; the other lists
  must be at least as long as the first, since the source indexes them past
  their end otherwise.
- SplitIndexes.GetSplitIndexes: requires `groups > 0` (the source divides by
  `groups`) and takes a natural `length`, as its callers pass a list size.

## Findings

| source | as written | input that shows it | evidently intended | confidence | as-written member | corrected member |
|---|---|---|---|---|---|---|
| include/Financial.h:45-46 | the running best starts at score 0 with value-initialised parameters, so a sweep whose scores are all at most 0 reports the defaults with score 0, a pair that is not among the candidates (and an empty sweep reports the defaults too) | one candidate `(A, -1.0)`: reported as `(defaults, 0.0)` | the first candidate with the largest score, and no result for an empty sweep | medium, not executed | BestResult.NonPositiveScoresMisreported | BestResult.BestCandidate |
