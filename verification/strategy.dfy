/**
  The strategy simulator of `main.cpp`: `net_growth` compounds a run of daily
  percent changes, and `algo` walks the series day by day with a two-state
  exposure machine (in or out of the market), scaling each day's change by
  `multiplier` or `outMultiplier` according to the state the previous day left.

  After the warm-up (`i > lookbackDays`) the state is re-decided every day from
  the compounded growth of a trailing window: a window minimum at or below
  `pulloutThresh` leaves the market, then a window maximum at or above
  `backinThresh` re-enters it; the second check runs last, so it wins.

  The trailing window is `subVector(upper_bound, lower_bound)` of the program's
  matrix type with `lower_bound = max(0, i - lookbackDays)` and `upper_bound = i`.
  Whether that slice includes day `i` is not visible here, so the model keeps
  both readings as `WindowBounds` and every property below holds for both.
 */
module Strategy {

  import opened Series
  import opened ParamSweep

  /** The two readings of the trailing window that ends at day `i`. */
  datatype WindowBounds =
    | ExcludesToday   // days max(0, i - lookbackDays) .. i - 1
    | IncludesToday   // days max(0, i - lookbackDays) .. i

  /** The smallest lookback for which the window of every day `i >= 1` is non-empty. */
  function MinLookback(bounds: WindowBounds): int
  {
    if bounds.ExcludesToday? then 1 else 0
  }

  /**
    The inputs `algo` can run on: a non-empty series and, once there is a day to
    simulate, a lookback that keeps every growth window non-empty (the program
    reads element 0 of the window's growth).
   */
  predicate WellFormed(x: seq<real>, p: Params, bounds: WindowBounds)
  {
    |x| >= 1 && (|x| == 1 || p.lookbackDays >= MinLookback(bounds))
  }

  /**
    `net_growth`: the running compounded growth of `x`, one entry per day:
    `g[0] = 1 + x[0]` and `g[k] = g[k - 1] * (1 + x[k])`.
   */
  function NetGrowth(x: seq<real>): (g: seq<real>)
    requires |x| > 0
    ensures |g| == |x|
    ensures g[0] == 1.0 + x[0]
    ensures forall k {:trigger x[k]} :: 1 <= k < |x| ==> g[k] == Compound(g[k - 1], x[k])
  {
    if |x| == 1 then [1.0 + x[0]]
    else
      var g := NetGrowth(x[..|x| - 1]);
      g + [Compound(Last(g), Last(x))]
  }

  /** Entry `k` of the running growth is the product of `1 + x[j]` over `j <= k`. */
  lemma {:induction false} NetGrowthIsCompounded(x: seq<real>, k: int)
    requires 0 <= k < |x|
    ensures NetGrowth(x)[k] == Compounded(x[..k + 1])
  {
    if k == 0 {
      assert x[..1] == [x[0]];
      assert [x[0]][1..] == [];
    } else {
      var g := NetGrowth(x);
      assert g[k] == Compound(g[k - 1], x[k]);
      NetGrowthIsCompounded(x, k - 1);
      assert x[..k + 1] == x[..k] + [x[k]];
      CompoundedSnoc(x[..k], x[k]);
    }
  }

  /** First day of the window that ends at day `i`: `max(0, i - lookback)`. */
  function WindowStart(i: int, lookback: int): int
  {
    if i - lookback > 0 then i - lookback else 0
  }

  /** The trailing window of day `i`. */
  function Window(x: seq<real>, i: int, lookback: int, bounds: WindowBounds): (w: seq<real>)
    requires 1 <= i < |x| && lookback >= MinLookback(bounds)
    ensures |w| > 0
  {
    x[WindowStart(i, lookback)..if bounds.IncludesToday? then i + 1 else i]
  }

  /** The compounded growth over the trailing window of day `i`. */
  function WindowGrowth(x: seq<real>, p: Params, bounds: WindowBounds, i: int): (g: seq<real>)
    requires 1 <= i < |x| && p.lookbackDays >= MinLookback(bounds)
    ensures |g| > 0
  {
    NetGrowth(Window(x, i, p.lookbackDays, bounds))
  }

  /**
    What the trailing window of one day says: whether the pull-out check and
    the back-in check fire. Neither is evaluated during the warm-up.
   */
  datatype Signal = Signal(pullout: bool, backin: bool)

  /** The checks of day `i`: only once `i > lookbackDays`, against the window's growth extremes. */
  function DaySignal(x: seq<real>, p: Params, bounds: WindowBounds, i: int): Signal
    requires 1 <= i < |x| && p.lookbackDays >= MinLookback(bounds)
  {
    var growth := WindowGrowth(x, p, bounds, i);
    Signal(
      i > p.lookbackDays && SeqMin(growth) <= p.pulloutThresh,
      i > p.lookbackDays && SeqMax(growth) >= p.backinThresh)
  }

  /** The checks of every day; day 0 is never checked. */
  function Signals(x: seq<real>, p: Params, bounds: WindowBounds): (signals: seq<Signal>)
    requires WellFormed(x, p, bounds)
    ensures |signals| == |x|
    ensures forall i :: 1 <= i < |x| ==> signals[i] == DaySignal(x, p, bounds, i)
  {
    seq(|x|, i requires 0 <= i < |x| => if i == 0 then Signal(false, false) else DaySignal(x, p, bounds, i))
  }

  /** One transition: the pull-out check clears the flag, then the back-in check sets it. */
  function Next(inMarket: bool, signal: Signal): bool
  {
    var afterPullout := if signal.pullout then false else inMarket;
    if signal.backin then true else afterPullout
  }

  /** The exposure state after day `i` of a run of checks; the machine starts in the market. */
  function StateAfter(signals: seq<Signal>, i: int): bool
    requires 0 <= i < |signals|
  {
    if i == 0 then true else Next(StateAfter(signals, i - 1), signals[i])
  }

  /** The exposure state of `algo` after day `i`. */
  function InMarketAfter(x: seq<real>, p: Params, bounds: WindowBounds, i: int): bool
    requires WellFormed(x, p, bounds) && 0 <= i < |x|
  {
    StateAfter(Signals(x, p, bounds), i)
  }

  /** The scale applied to a day's change in the given state. */
  function Exposure(p: Params, inMarket: bool): real
  {
    if inMarket then p.multiplier else p.outMultiplier
  }

  /** The simulator's loop state after `k` days: the values so far and the exposure flag. */
  datatype Trace = Trace(values: seq<real>, inMarket: bool)

  /**
    The first `k` days of the simulation loop, value and state advanced
    together: the newest value uses the state left by the day before.
   */
  function Run(x: seq<real>, p: Params, signals: seq<Signal>, k: int): (t: Trace)
    requires |signals| == |x| && 1 <= k <= |x|
    ensures |t.values| == k
    ensures t.values[0] == 1.0
    ensures t.inMarket == StateAfter(signals, k - 1)
    ensures k >= 2 ==>
      t.values[k - 1] == Compound(t.values[k - 2], Scale(Exposure(p, StateAfter(signals, k - 2)), x[k - 1]))
  {
    if k == 1 then Trace([1.0], true)
    else
      var t := Run(x, p, signals, k - 1);
      assert t.inMarket == StateAfter(signals, k - 2);
      var value := Compound(t.values[k - 2], Scale(Exposure(p, t.inMarket), x[k - 1]));
      var values := t.values + [value];
      assert values[k - 2] == t.values[k - 2] && values[k - 1] == value;
      Trace(values, Next(t.inMarket, signals[k - 1]))
  }

  /** Later days never rewrite earlier values: the first `j` values of `k` days are those of `j` days. */
  lemma {:induction false} RunPrefix(x: seq<real>, p: Params, signals: seq<Signal>, j: int, k: int)
    requires |signals| == |x| && 1 <= j <= k <= |x|
    ensures Run(x, p, signals, k).values[..j] == Run(x, p, signals, j).values
  {
    if j < k {
      RunPrefix(x, p, signals, j, k - 1);
      var before := Run(x, p, signals, k - 1).values;
      assert Run(x, p, signals, k).values[..k - 1] == before;
      assert Run(x, p, signals, k).values[..j] == before[..j];
    }
  }

  /** `algo`: the portfolio value on every day; one entry per day, starting at 1. */
  function Algo(x: seq<real>, p: Params, bounds: WindowBounds): (values: seq<real>)
    requires WellFormed(x, p, bounds)
    ensures |values| == |x|
    ensures values[0] == 1.0
  {
    Run(x, p, Signals(x, p, bounds), |x|).values
  }

  /**
    Day `i >= 1` multiplies the previous value by `1 + multiplier * x[i]` when
    the state after day `i - 1` is in the market and by `1 + outMultiplier * x[i]`
    otherwise.
   */
  lemma AlgoStep(x: seq<real>, p: Params, bounds: WindowBounds, i: int)
    requires WellFormed(x, p, bounds) && 1 <= i < |x|
    ensures var values := Algo(x, p, bounds);
      values[i] == Compound(values[i - 1], Scale(Exposure(p, InMarketAfter(x, p, bounds, i - 1)), x[i]))
  {
    var signals := Signals(x, p, bounds);
    RunPrefix(x, p, signals, i + 1, |x|);
    var values := Algo(x, p, bounds);
    var t := Run(x, p, signals, i + 1);
    assert values[i] == t.values[i] && values[i - 1] == t.values[i - 1] by {
      assert values[..i + 1] == t.values;
    }
  }

  /** The state after day `i >= 1` is the transition of the state before it under day `i`'s checks. */
  lemma InMarketStep(x: seq<real>, p: Params, bounds: WindowBounds, i: int)
    requires WellFormed(x, p, bounds) && 1 <= i < |x|
    ensures InMarketAfter(x, p, bounds, i) ==
      Next(InMarketAfter(x, p, bounds, i - 1), DaySignal(x, p, bounds, i))
  {
  }

  /** A one-day series has nothing to simulate: its values are `[1]`. */
  lemma AlgoSingleDay(x: seq<real>, p: Params, bounds: WindowBounds)
    requires |x| == 1
    ensures Algo(x, p, bounds) == [1.0]
  {
  }

  /**
    The transition table: a firing back-in check enters the market whatever the
    pull-out check says (it runs last); otherwise a firing pull-out check leaves
    it; otherwise the state is kept.
   */
  lemma TransitionTable(inMarket: bool, signal: Signal)
    ensures signal.backin ==> Next(inMarket, signal)
    ensures !signal.backin && signal.pullout ==> !Next(inMarket, signal)
    ensures !signal.backin && !signal.pullout ==> Next(inMarket, signal) == inMarket
  {
  }

  /**
    The checks of day `i`: none during the warm-up; afterwards pull-out fires
    exactly when the window's lowest growth is at most `pulloutThresh`, and
    back-in exactly when its highest growth is at least `backinThresh`.
   */
  lemma DaySignalTable(x: seq<real>, p: Params, bounds: WindowBounds, i: int)
    requires 1 <= i < |x| && p.lookbackDays >= MinLookback(bounds)
    ensures var growth := WindowGrowth(x, p, bounds, i);
      && (i <= p.lookbackDays ==> DaySignal(x, p, bounds, i) == Signal(false, false))
      && (i > p.lookbackDays ==>
            (DaySignal(x, p, bounds, i).pullout <==> exists j :: 0 <= j < |growth| && growth[j] <= p.pulloutThresh))
      && (i > p.lookbackDays ==>
            (DaySignal(x, p, bounds, i).backin <==> exists j :: 0 <= j < |growth| && growth[j] >= p.backinThresh))
  {
  }

  /** Both thresholds crossed on the same day after the warm-up: the state ends in the market. */
  lemma BackInWins(x: seq<real>, p: Params, bounds: WindowBounds, i: int)
    requires WellFormed(x, p, bounds) && 1 <= i < |x| && i > p.lookbackDays
    requires SeqMin(WindowGrowth(x, p, bounds, i)) <= p.pulloutThresh
    requires SeqMax(WindowGrowth(x, p, bounds, i)) >= p.backinThresh
    ensures InMarketAfter(x, p, bounds, i)
  {
    InMarketStep(x, p, bounds, i);
  }

  /** No transition is evaluated during the warm-up: days `0..lookbackDays` leave the machine in the market. */
  lemma {:induction false} WarmUpStaysInMarket(x: seq<real>, p: Params, bounds: WindowBounds, i: int)
    requires WellFormed(x, p, bounds) && 0 <= i < |x| && i <= p.lookbackDays
    ensures InMarketAfter(x, p, bounds, i)
  {
    if i > 0 {
      WarmUpStaysInMarket(x, p, bounds, i - 1);
      InMarketStep(x, p, bounds, i);
    }
  }

  /** Days `1..lookbackDays + 1` are always scaled by `multiplier`. */
  lemma AlgoWarmUp(x: seq<real>, p: Params, bounds: WindowBounds)
    requires WellFormed(x, p, bounds)
    ensures var values := Algo(x, p, bounds);
      forall i {:trigger x[i]} :: 1 <= i < |x| && i <= p.lookbackDays + 1 ==>
        values[i] == Compound(values[i - 1], Scale(p.multiplier, x[i]))
  {
    forall i | 1 <= i < |x| && i <= p.lookbackDays + 1 {
      AlgoWarmUpDay(x, p, bounds, i);
    }
  }

  /** One warm-up day: the state before it is in the market. */
  lemma AlgoWarmUpDay(x: seq<real>, p: Params, bounds: WindowBounds, i: int)
    requires WellFormed(x, p, bounds) && 1 <= i < |x| && i <= p.lookbackDays + 1
    ensures var values := Algo(x, p, bounds);
      values[i] == Compound(values[i - 1], Scale(p.multiplier, x[i]))
  {
    WarmUpStaysInMarket(x, p, bounds, i - 1);
    AlgoStep(x, p, bounds, i);
  }

  /**
    When every day up to `k` is scaled by the same `m`, the value on day `k` is
    the product of `1 + m * x[j]` over days `1..k`.
   */
  lemma AlgoCompounds(x: seq<real>, p: Params, bounds: WindowBounds, m: real, k: int)
    requires WellFormed(x, p, bounds) && 0 <= k < |x|
    requires forall j :: 0 <= j < k ==> Exposure(p, InMarketAfter(x, p, bounds, j)) == m
    ensures Algo(x, p, bounds)[k] == Compounded(Scaled(m, x[1..k + 1]))
  {
    var values := Algo(x, p, bounds);
    forall i | 1 <= i <= k
      ensures values[i] == Compound(values[i - 1], Scale(m, x[i]))
    {
      AlgoStep(x, p, bounds, i);
    }
    CompoundedSteps(values, x, m, k);
  }

  /**
    With `multiplier == outMultiplier` the state machine has no effect: day `k`
    is worth the product of `1 + multiplier * x[j]` over days `1..k`.
   */
  lemma AlgoEqualMultipliers(x: seq<real>, p: Params, bounds: WindowBounds)
    requires WellFormed(x, p, bounds) && p.multiplier == p.outMultiplier
    ensures forall k :: 0 <= k < |x| ==>
      Algo(x, p, bounds)[k] == Compounded(Scaled(p.multiplier, x[1..k + 1]))
  {
    forall k | 0 <= k < |x|
      ensures Algo(x, p, bounds)[k] == Compounded(Scaled(p.multiplier, x[1..k + 1]))
    {
      AlgoCompounds(x, p, bounds, p.multiplier, k);
    }
  }

  /**
    With `multiplier == outMultiplier` the result depends neither on the
    thresholds, nor on the lookback, nor on the window reading.
   */
  lemma AlgoIgnoresThresholds(x: seq<real>, p: Params, q: Params, b: WindowBounds, c: WindowBounds)
    requires WellFormed(x, p, b) && WellFormed(x, q, c)
    requires p.multiplier == p.outMultiplier == q.multiplier == q.outMultiplier
    ensures Algo(x, p, b) == Algo(x, q, c)
  {
    AlgoEqualMultipliers(x, p, b);
    AlgoEqualMultipliers(x, q, c);
  }

  /**
    A series no longer than the warm-up plus one day never leaves the market:
    its terminal value is the product of `1 + multiplier * x[j]` over days `1..`.
   */
  lemma AlgoWithinWarmUp(x: seq<real>, p: Params, bounds: WindowBounds)
    requires WellFormed(x, p, bounds) && |x| <= p.lookbackDays + 2
    ensures Last(Algo(x, p, bounds)) == Compounded(Scaled(p.multiplier, x[1..]))
  {
    var values := Algo(x, p, bounds);
    forall i | 1 <= i < |x|
      ensures values[i] == Compound(values[i - 1], Scale(p.multiplier, x[i]))
    {
      AlgoWarmUpDay(x, p, bounds, i);
    }
    CompoundedSteps(values, x, p.multiplier, |x| - 1);
    assert x[1..|x|] == x[1..];
  }

  /**
    A constant daily change `rate` held at a single scale `m` (equal in- and
    out-of-market multipliers) ends at `(1 + m * rate)^(|x| - 1)`.
   */
  lemma AlgoConstantRate(x: seq<real>, p: Params, bounds: WindowBounds, rate: real)
    requires WellFormed(x, p, bounds) && p.multiplier == p.outMultiplier
    requires forall j :: 1 <= j < |x| ==> x[j] == rate
    ensures Last(Algo(x, p, bounds)) == Pow(1.0 + p.multiplier * rate, |x| - 1)
  {
    AlgoEqualMultipliers(x, p, bounds);
    var s := Scaled(p.multiplier, x[1..]);
    assert x[1..|x|] == x[1..];
    CompoundedConstant(s, p.multiplier * rate);
  }

  /**
    A worked five-day example: multiplier 1, flat while out, pull-out at 0.9,
    back-in at 1.1, two days of lookback. The only post-warm-up decision that
    affects a value (after day 3; day 4's checks reach no later day) sees growth between 0.9595 and 1.01 and keeps the market, so every
    day is held.
   */
  lemma FiveDayExample(x: seq<real>, p: Params, bounds: WindowBounds)
    requires x == [0.0, 0.01, -0.05, 0.02, 0.03] && p == Params(1.0, 0.0, 0.9, 1.1, 2)
    ensures WellFormed(x, p, bounds)
    ensures Last(Algo(x, p, bounds)) == 1.01 * 0.95 * 1.02 * 1.03
  {
    FiveDayHeld(x, p, bounds);
    AlgoCompounds(x, p, bounds, 1.0, 4);
    FiveDayProduct(x);
  }

  /** The example never leaves the market during its first four days. */
  lemma FiveDayHeld(x: seq<real>, p: Params, bounds: WindowBounds)
    requires x == [0.0, 0.01, -0.05, 0.02, 0.03] && p == Params(1.0, 0.0, 0.9, 1.1, 2)
    ensures forall j :: 0 <= j < 4 ==> InMarketAfter(x, p, bounds, j)
  {
    forall j | 0 <= j <= 2
      ensures InMarketAfter(x, p, bounds, j)
    {
      WarmUpStaysInMarket(x, p, bounds, j);
    }
    FiveDayCalm(x, p, bounds);
    InMarketStep(x, p, bounds, 3);
  }

  /** The example's only post-warm-up check that affects a value, after day 3, fires neither way. */
  lemma FiveDayCalm(x: seq<real>, p: Params, bounds: WindowBounds)
    requires x == [0.0, 0.01, -0.05, 0.02, 0.03] && p == Params(1.0, 0.0, 0.9, 1.1, 2)
    ensures DaySignal(x, p, bounds, 3) == Signal(false, false)
  {
    var w := Window(x, 3, 2, bounds);
    var g := WindowGrowth(x, p, bounds, 3);
    assert w[0] == 0.01 && w[1] == -0.05;
    assert g[0] == 1.01 && g[1] == Compound(1.01, -0.05) == 0.9595;
    if bounds.IncludesToday? {
      assert |w| == 3 && w[2] == 0.02;
      assert g[2] == Compound(0.9595, 0.02) == 0.97869;
    } else {
      assert |w| == 2;
    }
    assert forall j :: 0 <= j < |g| ==> 0.9 < g[j] < 1.1;
  }

  /** The example's four held days compound to `1.01 * 0.95 * 1.02 * 1.03`. */
  lemma FiveDayProduct(x: seq<real>)
    requires x == [0.0, 0.01, -0.05, 0.02, 0.03]
    ensures Compounded(Scaled(1.0, x[1..5])) == 1.01 * 0.95 * 1.02 * 1.03
  {
    var s := Scaled(1.0, x[1..5]);
    assert s[0] == 0.01 && s[1] == -0.05 && s[2] == 0.02 && s[3] == 0.03;
    assert |s| == 4;
    assert s[..1][..0] == [] && s[..2][..1] == s[..1] && s[..3][..2] == s[..2] && s[..3] == s[..|s| - 1];
    assert Compounded(s[..1]) == 1.01;
    assert Compounded(s[..2]) == Compound(1.01, -0.05) == 0.9595;
    assert Compounded(s[..3]) == Compound(0.9595, 0.02) == 0.97869;
    assert Compounded(s) == Compound(0.97869, 0.03) == 1.01 * 0.95 * 1.02 * 1.03;
  }

  /**
    The program's sweep: `algo` run through `testAlgoParams` on one series. Value
    `i` is the terminal portfolio value of the `i`-th parameter combination.
   */
  function Sweep(data: seq<real>, lists: ParamLists, bounds: WindowBounds): (values: seq<real>)
    requires lists.Aligned()
    requires forall i :: 0 <= i < lists.Count() ==> WellFormed(data, lists.Combo(i), bounds)
    ensures |values| == lists.Count()
    ensures forall i :: 0 <= i < |values| ==>
      values[i] == Algo(data, lists.Combo(i), bounds)[|data| - 1]
  {
    TestAlgoParams((d, p) requires WellFormed(d, p, bounds) => Algo(d, p, bounds), data, lists)
  }
}
