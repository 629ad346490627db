/**
  Reduction of a sweep's scored candidates to the best one (`findBestResult`).
  The running best starts at score 0 with default-constructed parameters and is
  replaced only by a strictly greater score, so ties keep the earliest candidate
  and a list whose scores are all `<= 0` reports the defaults with score 0.
 */
module BestResult {

  /** One evaluated candidate: its parameters and the terminal value they reached. */
  datatype Scored<P> = Scored(params: P, value: real)

  /** `k` holds the first occurrence of the largest score in `results`. */
  ghost predicate IsFirstMax<P>(results: seq<Scored<P>>, k: int)
  {
    && 0 <= k < |results|
    && (forall j :: 0 <= j < |results| ==> results[j].value <= results[k].value)
    && (forall j :: 0 <= j < k ==> results[j].value < results[k].value)
  }

  /** `best` is what the reduction promises for `results`. */
  ghost predicate Reduces<P>(results: seq<Scored<P>>, defaultParams: P, best: Scored<P>)
  {
    && best.value >= 0.0
    && (forall i :: 0 <= i < |results| ==> results[i].value <= best.value)
    && ((forall i :: 0 <= i < |results| ==> results[i].value <= 0.0) ==>
          best == Scored(defaultParams, 0.0))
    && ((exists i :: 0 <= i < |results| && results[i].value > 0.0) ==>
          exists k :: IsFirstMax(results, k) && best == results[k])
  }

  /**
    The running maximum over `results` in order. The returned score is at least
    0 and at least every score in `results`; if some score is positive the
    returned pair is the first candidate with the largest score, otherwise it is
    the default parameters with score 0.
   */
  function FindBestResult<P>(results: seq<Scored<P>>, defaultParams: P): (best: Scored<P>)
    ensures best.value >= 0.0
    ensures forall i :: 0 <= i < |results| ==> results[i].value <= best.value
    ensures (forall i :: 0 <= i < |results| ==> results[i].value <= 0.0) ==>
      best == Scored(defaultParams, 0.0)
    ensures (exists i :: 0 <= i < |results| && results[i].value > 0.0) ==>
      exists k :: IsFirstMax(results, k) && best == results[k]
  {
    if |results| == 0 then Scored(defaultParams, 0.0)
    else
      var best := FindBestResult(results[..|results| - 1], defaultParams);
      var candidate := results[|results| - 1];
      ReducesStep(results, defaultParams, best);
      if candidate.value > best.value then candidate else best
  }

  /** One more candidate replaces the running best only with a strictly greater score. */
  lemma ReducesStep<P>(results: seq<Scored<P>>, defaultParams: P, best: Scored<P>)
    requires |results| > 0 && Reduces(results[..|results| - 1], defaultParams, best)
    ensures var candidate := results[|results| - 1];
      Reduces(results, defaultParams, if candidate.value > best.value then candidate else best)
  {
    var n := |results|;
    var front := results[..n - 1];
    var candidate := results[n - 1];
    assert forall j :: 0 <= j < n - 1 ==> front[j] == results[j];
    if candidate.value > best.value {
      forall j | 0 <= j < n - 1
        ensures results[j].value < candidate.value
      {
        assert front[j].value <= best.value;
      }
      assert IsFirstMax(results, n - 1);
    } else {
      forall j | 0 <= j < n
        ensures results[j].value <= best.value
      {
        if j < n - 1 {
          assert front[j].value <= best.value;
        }
      }
      if exists i :: 0 <= i < n && results[i].value > 0.0 {
        assert best.value > 0.0;
        assert exists i :: 0 <= i < |front| && front[i].value > 0.0;
        var k :| IsFirstMax(front, k) && best == front[k];
        assert IsFirstMax(results, k);
      } else {
        assert forall i :: 0 <= i < |front| ==> front[i].value <= 0.0;
      }
    }
  }

  /**
    Conversely, whenever `k` is the first position of a positive largest score,
    the reduction returns exactly `results[k]`: later ties never displace it.
   */
  lemma FirstMaxIsReturned<P>(results: seq<Scored<P>>, defaultParams: P, k: int)
    requires IsFirstMax(results, k) && results[k].value > 0.0
    ensures FindBestResult(results, defaultParams) == results[k]
  {
    var best := FindBestResult(results, defaultParams);
    var k' :| IsFirstMax(results, k') && best == results[k'];
    assert k' == k;
  }

  /** Two equal best scores: the earlier candidate wins. */
  lemma EarliestTieWins(a: int, b: int, c: int)
    ensures FindBestResult([Scored(a, 0.5), Scored(b, 2.0), Scored(c, 2.0)], 0) == Scored(b, 2.0)
  {
    var results := [Scored(a, 0.5), Scored(b, 2.0), Scored(c, 2.0)];
    FirstMaxIsReturned(results, 0, 1);
  }

  /**
    With every score at or below 0 the reduction reports the default
    parameters with score 0, a pair that is not among the candidates: a single
    candidate scoring -1 is reported as `(defaults, 0)`, while the first
    largest score is that candidate itself.
   */
  lemma NonPositiveScoresMisreported(a: int, d: int)
    ensures FindBestResult([Scored(a, -1.0)], d) == Scored(d, 0.0)
    ensures BestCandidate([Scored(a, -1.0)]) == Some(Scored(a, -1.0))
  {
    var results := [Scored(a, -1.0)];
    BestCandidateIsFirstMax(results, 0);
  }

  datatype Option<T> = None | Some(value: T)

  /**
    The reduction with a "no best yet" start instead of score 0: nothing for no
    candidates, otherwise the first candidate with the largest score, whatever
    its sign.
   */
  function BestCandidate<P>(results: seq<Scored<P>>): (best: Option<Scored<P>>)
    ensures best.None? <==> |results| == 0
    ensures best.Some? ==> exists k :: IsFirstMax(results, k) && best.value == results[k]
  {
    if |results| == 0 then None
    else
      var rest := BestCandidate(results[..|results| - 1]);
      BestCandidateStep(results, rest);
      var candidate := results[|results| - 1];
      if rest.None? || candidate.value > rest.value.value then Some(candidate) else rest
  }

  /** One more candidate replaces the best so far only with a strictly greater score. */
  lemma BestCandidateStep<P>(results: seq<Scored<P>>, rest: Option<Scored<P>>)
    requires |results| > 0
    requires rest.None? <==> |results| == 1
    requires rest.Some? ==> exists k :: IsFirstMax(results[..|results| - 1], k) && rest.value == results[k]
    ensures var candidate := results[|results| - 1];
      var best := if rest.None? || candidate.value > rest.value.value then candidate else rest.value;
      exists k :: IsFirstMax(results, k) && best == results[k]
  {
    var n := |results|;
    var front := results[..n - 1];
    var candidate := results[n - 1];
    if rest.None? {
      assert IsFirstMax(results, 0);
    } else {
      var k :| IsFirstMax(front, k) && rest.value == results[k];
      assert forall j :: 0 <= j < n - 1 ==> front[j] == results[j];
      if candidate.value > rest.value.value {
        forall j | 0 <= j < n - 1
          ensures results[j].value < candidate.value
        {
          assert front[j].value <= front[k].value;
        }
        assert IsFirstMax(results, n - 1);
      } else {
        forall j | 0 <= j < n
          ensures results[j].value <= results[k].value
        {
          if j < n - 1 {
            assert front[j].value <= front[k].value;
          }
        }
        assert IsFirstMax(results, k);
      }
    }
  }

  /** Conversely, the first position of the largest score is the one returned. */
  lemma BestCandidateIsFirstMax<P>(results: seq<Scored<P>>, k: int)
    requires IsFirstMax(results, k)
    ensures BestCandidate(results) == Some(results[k])
  {
    var best := BestCandidate(results);
    var k' :| IsFirstMax(results, k') && best.value == results[k'];
    assert k' == k;
  }

  /** Whenever some score is positive, the reduction as written and the corrected one agree. */
  lemma BestCandidateAgrees<P>(results: seq<Scored<P>>, defaultParams: P)
    requires exists i :: 0 <= i < |results| && results[i].value > 0.0
    ensures BestCandidate(results) == Some(FindBestResult(results, defaultParams))
  {
    var best := FindBestResult(results, defaultParams);
    var k :| IsFirstMax(results, k) && best == results[k];
    BestCandidateIsFirstMax(results, k);
  }
}
