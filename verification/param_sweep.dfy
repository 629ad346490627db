/**
  The sequential sweep helpers: `testAlgoParams` runs an algorithm once per
  parameter combination, the `i`-th combination taking the `i`-th entry of every
  parameter list, and keeps the last value of each run; `getParamRange` builds
  an evenly spaced list of candidate values for one parameter.
 */
module ParamSweep {

  import opened Series

  /**
    One hyperparameter combination of the strategy, in the order of the
    program's `tuple<double, double, double, double, int>`.
   */
  datatype Params = Params(
    multiplier: real,
    outMultiplier: real,
    pulloutThresh: real,
    backinThresh: real,
    lookbackDays: int)

  /** The parallel parameter lists handed to `testAlgoParams`, one per field. */
  datatype ParamLists = ParamLists(
    multipliers: seq<real>,
    outMultipliers: seq<real>,
    pulloutThreshs: seq<real>,
    backinThreshs: seq<real>,
    lookbackDays: seq<int>)
  {
    /** The number of combinations is the length of the first list. */
    function Count(): nat
    {
      |multipliers|
    }

    /** Every other list can be indexed at each combination. */
    predicate Aligned()
    {
      && |outMultipliers| >= Count()
      && |pulloutThreshs| >= Count()
      && |backinThreshs| >= Count()
      && |lookbackDays| >= Count()
    }

    /** Combination `i`: the `i`-th entry of every list. */
    function Combo(i: nat): Params
      requires Aligned() && i < Count()
    {
      Params(multipliers[i], outMultipliers[i], pulloutThreshs[i], backinThreshs[i], lookbackDays[i])
    }
  }

  /** The algorithm can be applied to every combination and returns a non-empty series. */
  ghost predicate Applicable(alg: (seq<real>, Params) --> seq<real>, data: seq<real>, lists: ParamLists)
    requires lists.Aligned()
  {
    forall i :: 0 <= i < lists.Count() ==>
      alg.requires(data, lists.Combo(i)) && |alg(data, lists.Combo(i))| > 0
  }

  /** The first `n` values of the sweep, pushed in index order. */
  function TestFirst(alg: (seq<real>, Params) --> seq<real>, data: seq<real>, lists: ParamLists, n: nat)
    : (values: seq<real>)
    requires lists.Aligned() && Applicable(alg, data, lists) && n <= lists.Count()
    ensures |values| == n
    ensures forall i :: 0 <= i < n ==> values[i] == Last(alg(data, lists.Combo(i)))
  {
    if n == 0 then []
    else TestFirst(alg, data, lists, n - 1) + [Last(alg(data, lists.Combo(n - 1)))]
  }

  /**
    One value per combination: value `i` is the last output of `alg` applied to
    `data` and the `i`-th entry of every parameter list, in index order.
   */
  function TestAlgoParams(alg: (seq<real>, Params) --> seq<real>, data: seq<real>, lists: ParamLists)
    : (values: seq<real>)
    requires lists.Aligned() && Applicable(alg, data, lists)
    ensures |values| == lists.Count()
    ensures forall i :: 0 <= i < |values| ==> values[i] == Last(alg(data, lists.Combo(i)))
  {
    TestFirst(alg, data, lists, lists.Count())
  }

  /** `k` points `low, low + delta, ..., low + (k - 1) * delta`, pushed in order. */
  function Steps(low: real, delta: real, k: nat): (points: seq<real>)
    ensures |points| == k
    ensures forall i :: 0 <= i < k ==> points[i] == low + delta * (i as real)
  {
    if k == 0 then [] else Steps(low, delta, k - 1) + [low + delta * ((k - 1) as real)]
  }

  /**
    `num` candidate values from `low` to `high`: `num - 1` points spaced
    `(high - low) / (num - 1)` apart from `low`, then `high` itself. With
    `num <= 1` the spacing is never used and the range is just `[high]`.
   */
  function GetParamRange(low: real, high: real, num: int): (range: seq<real>)
    ensures |range| == if num >= 2 then num else 1
    ensures Last(range) == high
    ensures num >= 2 ==> range[0] == low
    ensures num >= 2 ==> forall i :: 0 <= i < num - 1 ==>
      range[i] == low + (high - low) / ((num - 1) as real) * (i as real)
  {
    if num <= 1 then [high]
    else
      var delta := (high - low) / ((num - 1) as real);
      var points := Steps(low, delta, num - 1);
      var range := points + [high];
      assert forall i :: 0 <= i < num - 1 ==> range[i] == points[i];
      range
  }

  /**
    In exact arithmetic the forced last element lands where the spacing would
    put it: every consecutive pair of the range, the last pair included, is the
    same step `(high - low) / (num - 1)` apart.
   */
  lemma ParamRangeEvenlySpaced(low: real, high: real, num: int)
    requires num >= 2
    ensures var range := GetParamRange(low, high, num);
      forall i :: 0 < i < num ==> range[i] - range[i - 1] == (high - low) / ((num - 1) as real)
  {
    var range := GetParamRange(low, high, num);
    var delta := (high - low) / ((num - 1) as real);
    assert delta * ((num - 1) as real) == high - low;
    forall i | 0 < i < num
      ensures range[i] - range[i - 1] == delta
    {
      if i == num - 1 {
        assert range[i - 1] == low + delta * ((num - 2) as real);
      } else {
        assert range[i] == low + delta * (i as real);
        assert range[i - 1] == low + delta * ((i - 1) as real);
      }
    }
  }

  /** With `low <= high` the range is non-decreasing and stays within `[low, high]`. */
  lemma ParamRangeBounded(low: real, high: real, num: int)
    requires low <= high
    ensures var range := GetParamRange(low, high, num);
      && (forall i :: 0 <= i < |range| ==> low <= range[i] <= high)
      && (forall i :: 0 < i < |range| ==> range[i - 1] <= range[i])
  {
    var range := GetParamRange(low, high, num);
    if num >= 2 {
      var delta := (high - low) / ((num - 1) as real);
      assert delta >= 0.0;
      ParamRangeEvenlySpaced(low, high, num);
      forall i | 0 <= i < num - 1
        ensures low <= range[i] <= high
      {
        assert range[i] == low + delta * (i as real);
        assert delta * (i as real) <= delta * ((num - 1) as real);
        assert delta * ((num - 1) as real) == high - low;
      }
    }
  }
}
