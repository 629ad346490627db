/**
  Work partitioning of the parameter sweep: `getSplitIndexes` cuts `length`
  candidates into `groups` contiguous chunks whose sizes differ by at most one
  and returns the cumulative end index of each chunk; the parallel driver then
  walks those ends from `prevIndex = 0`, taking `[prevIndex, index)` as a chunk.
 */
module SplitIndexes {

  import opened Series

  function Min(a: int, b: int): int
  {
    if a <= b then a else b
  }

  /** `s` with its first `k` entries each raised by one (the remainder loop). */
  function BumpFirst(s: seq<nat>, k: nat): (r: seq<nat>)
    requires k <= |s|
    ensures |r| == |s|
    ensures forall i :: 0 <= i < |s| ==> r[i] == s[i] + (if i < k then 1 else 0)
  {
    if k == 0 then s
    else
      var r := BumpFirst(s, k - 1);
      r[k - 1 := r[k - 1] + 1]
  }

  /**
    The group sizes: `groups` copies of `length / groups`, then one more for each
    of the first `length % groups` groups. Both operands are non-negative, so the
    program's truncating `/` and `%` agree with Dafny's.
   */
  function GroupSizes(length: nat, groups: nat): (sizes: seq<nat>)
    requires groups > 0
    ensures |sizes| == groups
    ensures forall i :: 0 <= i < groups ==>
      sizes[i] == length / groups + (if i < length % groups then 1 else 0)
  {
    BumpFirst(seq(groups, _ => length / groups), length % groups)
  }

  /** Running totals from `start`: entry `k` is `start + sizes[0] + ... + sizes[k]`. */
  function RunningEnds(sizes: seq<nat>, start: int): (ends: seq<int>)
    ensures |ends| == |sizes|
    ensures |sizes| > 0 ==> ends[0] == start + sizes[0]
    ensures forall k {:trigger sizes[k]} :: 0 < k < |sizes| ==> ends[k] == ends[k - 1] + sizes[k]
  {
    if |sizes| == 0 then []
    else [start + sizes[0]] + RunningEnds(sizes[1..], start + sizes[0])
  }

  /** The split indexes: `groups` non-decreasing ends within `[0, length]`, the last one `length`. */
  function GetSplitIndexes(length: nat, groups: nat): (ends: seq<int>)
    requires groups > 0
    ensures |ends| == groups
    ensures forall i, j :: 0 <= i <= j < groups ==> ends[i] <= ends[j]
    ensures forall k :: 0 <= k < groups ==> 0 <= ends[k] <= length
    ensures ends[groups - 1] == length
  {
    var ends := RunningEnds(GroupSizes(length, groups), 0);
    EndsSorted(length, groups);
    EndsReachLength(length, groups);
    ends
  }

  /** The running ends of the group sizes start at a size and never decrease. */
  lemma EndsSorted(length: nat, groups: nat)
    requires groups > 0
    ensures var ends := RunningEnds(GroupSizes(length, groups), 0);
      && |ends| == groups
      && ends[0] >= 0
      && (forall i, j :: 0 <= i <= j < groups ==> ends[i] <= ends[j])
  {
    var sizes := GroupSizes(length, groups);
    var ends := RunningEnds(sizes, 0);
    forall k | 0 < k < groups
      ensures ends[k - 1] <= ends[k]
    {
      assert ends[k] == ends[k - 1] + sizes[k];
    }
    AdjacentSorted(ends);
  }

  /** The last running end of the group sizes is `length`. */
  lemma EndsReachLength(length: nat, groups: nat)
    requires groups > 0
    ensures var ends := RunningEnds(GroupSizes(length, groups), 0);
      |ends| == groups && ends[groups - 1] == length
  {
    var ends := RunningEnds(GroupSizes(length, groups), 0);
    EndsClosedForm(length, groups, ends, groups - 1);
    LastEnd(length, groups);
  }

  /** The closed form at the last group is `length` itself. */
  lemma LastEnd(length: nat, groups: nat)
    requires groups > 0
    ensures groups * (length / groups) + Min(groups, length % groups) == length
  {
    assert Min(groups, length % groups) == length % groups;
  }

  /** The `k`-th split index is `(k + 1) * (length / groups) + min(k + 1, length % groups)`. */
  lemma SplitIndexesClosedForm(length: nat, groups: nat)
    requires groups > 0
    ensures var ends := GetSplitIndexes(length, groups);
      forall k :: 0 <= k < groups ==>
        ends[k] == (k + 1) * (length / groups) + Min(k + 1, length % groups)
  {
    var ends := RunningEnds(GroupSizes(length, groups), 0);
    assert GetSplitIndexes(length, groups) == ends;
    EndsClosedForm(length, groups, ends, groups - 1);
  }

  /** Adjacent order extends to every pair. */
  lemma {:induction false} AdjacentSorted(ends: seq<int>)
    requires forall k :: 0 < k < |ends| ==> ends[k - 1] <= ends[k]
    ensures forall i, j :: 0 <= i <= j < |ends| ==> ends[i] <= ends[j]
  {
    if |ends| > 1 {
      var front := ends[..|ends| - 1];
      AdjacentSorted(front);
      forall i, j | 0 <= i <= j < |ends|
        ensures ends[i] <= ends[j]
      {
        if j == |ends| - 1 && i < j {
          assert front[i] <= front[j - 1];
        } else if j < |ends| - 1 {
          assert front[i] <= front[j];
        }
      }
    }
  }

  /** Induction on `k` for the closed form of the `k`-th end. */
  lemma {:induction false} EndsClosedForm(length: nat, groups: nat, ends: seq<int>, k: nat)
    requires groups > 0 && k < groups
    requires ends == RunningEnds(GroupSizes(length, groups), 0)
    ensures forall j :: 0 <= j <= k ==>
      ends[j] == (j + 1) * (length / groups) + Min(j + 1, length % groups)
  {
    var q, r := length / groups, length % groups;
    if k > 0 {
      EndsClosedForm(length, groups, ends, k - 1);
      var sizes := GroupSizes(length, groups);
      assert ends[k] == ends[k - 1] + sizes[k];
      assert ends[k] == ends[k - 1] + q + (if k < r then 1 else 0);
      assert (k + 1) * q == k * q + q;
    }
  }

  /**
    Cut `k` of a walk over `ends` from `prev`: `prev` itself for `k == 0`, then
    the end of chunk `k - 1`. Chunk `k` runs from cut `k` to `ends[k]`, and the
    walk stops at cut `|ends|`.
   */
  function Cut(ends: seq<int>, prev: int, k: nat): int
    requires k <= |ends|
  {
    if k == 0 then prev else ends[k - 1]
  }

  /** The ends can be walked from `prev` inside a list of `n` items: no chunk runs backwards or past the end. */
  predicate Walkable(ends: seq<int>, prev: int, n: int)
  {
    && 0 <= prev <= n
    && (forall k :: 0 <= k < |ends| ==> 0 <= ends[k] <= n)
    && (forall k {:trigger Cut(ends, prev, k)} :: 0 <= k < |ends| ==> Cut(ends, prev, k) <= ends[k])
  }

  function Flatten<T>(chunks: seq<seq<T>>): seq<T>
  {
    if |chunks| == 0 then [] else chunks[0] + Flatten(chunks[1..])
  }

  /**
    The chunk walk of the parallel driver: starting at `prev`, each end closes
    the chunk `[prev, end)` of `xs` and becomes the next `prev`.
   */
  function Chunks<T>(xs: seq<T>, ends: seq<int>, prev: int): (chunks: seq<seq<T>>)
    requires Walkable(ends, prev, |xs|)
    ensures |chunks| == |ends|
    ensures forall k :: 0 <= k < |ends| ==> |chunks[k]| == ends[k] - Cut(ends, prev, k)
  {
    seq(|ends|, k requires 0 <= k < |ends| => xs[Cut(ends, prev, k)..ends[k]])
  }

  /** Concatenating one more chunk appends its items. */
  lemma {:induction false} FlattenSnoc<T>(chunks: seq<seq<T>>, c: seq<T>)
    ensures Flatten(chunks + [c]) == Flatten(chunks) + c
  {
    if |chunks| == 0 {
      assert chunks + [c] == [c];
      assert [c][1..] == [];
    } else {
      assert (chunks + [c])[1..] == chunks[1..] + [c];
      FlattenSnoc(chunks[1..], c);
    }
  }

  /** Every cut of a walk lies between `prev` and the end of the list. */
  lemma {:induction false} CutInRange(ends: seq<int>, prev: int, n: int, k: nat)
    requires Walkable(ends, prev, n) && k <= |ends|
    ensures prev <= Cut(ends, prev, k) <= n
  {
    if k > 0 {
      CutInRange(ends, prev, n, k - 1);
      assert Cut(ends, prev, k - 1) <= ends[k - 1];
    }
  }

  /** The first `k` chunks of a walk, concatenated, are the items from `prev` to cut `k`. */
  lemma {:induction false} FlattenFirstChunks<T>(xs: seq<T>, ends: seq<int>, prev: int, chunks: seq<seq<T>>, k: nat)
    requires Walkable(ends, prev, |xs|) && k <= |ends| == |chunks|
    requires forall j :: 0 <= j < |ends| ==> chunks[j] == xs[Cut(ends, prev, j)..ends[j]]
    ensures prev <= Cut(ends, prev, k) <= |xs|
    ensures Flatten(chunks[..k]) == xs[prev..Cut(ends, prev, k)]
  {
    CutInRange(ends, prev, |xs|, k);
    if k == 0 {
      assert chunks[..0] == [];
    } else {
      FlattenFirstChunks(xs, ends, prev, chunks, k - 1);
      TakeSnoc(chunks, k);
      FlattenSnoc(chunks[..k - 1], chunks[k - 1]);
      SliceJoin(xs, prev, Cut(ends, prev, k - 1), ends[k - 1]);
    }
  }

  /**
    The walk covers `xs` without gaps or overlaps: its chunks, concatenated in
    order, are exactly the items from `prev` to where the walk stops.
   */
  lemma FlattenChunks<T>(xs: seq<T>, ends: seq<int>, prev: int)
    requires Walkable(ends, prev, |xs|)
    ensures prev <= Cut(ends, prev, |ends|) <= |xs|
    ensures Flatten(Chunks(xs, ends, prev)) == xs[prev..Cut(ends, prev, |ends|)]
  {
    var chunks := Chunks(xs, ends, prev);
    FlattenFirstChunks(xs, ends, prev, chunks, |ends|);
    assert chunks[..|ends|] == chunks;
  }

  /**
    Consecutive split indexes are `length / groups` apart, one more exactly for
    the first `length % groups` groups.
   */
  lemma SplitGroupSize(length: nat, groups: nat, k: nat)
    requires k < groups
    ensures var ends := GetSplitIndexes(length, groups);
      ends[k] - (if k == 0 then 0 else ends[k - 1])
        == length / groups + (if k < length % groups then 1 else 0)
  {
    var sizes := GroupSizes(length, groups);
    var ends := RunningEnds(sizes, 0);
    assert GetSplitIndexes(length, groups) == ends;
    assert ends[k] - (if k == 0 then 0 else ends[k - 1]) == sizes[k];
  }

  /**
    Partitioning law: walking the split indexes of `|xs|` into `groups` from 0
    yields `groups` contiguous chunks, chunk `k` holding `|xs| / groups` items
    plus one exactly when `k < |xs| % groups`, and together they are `xs`.
   */
  lemma PartitionLaw<T>(xs: seq<T>, groups: nat)
    requires groups > 0
    ensures Walkable(GetSplitIndexes(|xs|, groups), 0, |xs|)
    ensures var chunks := Chunks(xs, GetSplitIndexes(|xs|, groups), 0);
      && |chunks| == groups
      && (forall k :: 0 <= k < groups ==>
            |chunks[k]| == |xs| / groups + (if k < |xs| % groups then 1 else 0))
      && Flatten(chunks) == xs
  {
    var ends := GetSplitIndexes(|xs|, groups);
    SplitIndexesWalkable(|xs|, groups);
    var chunks := Chunks(xs, ends, 0);
    forall k | 0 <= k < groups
      ensures |chunks[k]| == |xs| / groups + (if k < |xs| % groups then 1 else 0)
    {
      SplitGroupSize(|xs|, groups, k);
    }
    FlattenChunks(xs, ends, 0);
    assert Cut(ends, 0, groups) == |xs|;
    assert xs[0..|xs|] == xs;
  }

  /** The split indexes of `length` can be walked from 0 over `length` items. */
  lemma SplitIndexesWalkable(length: nat, groups: nat)
    requires groups > 0
    ensures Walkable(GetSplitIndexes(length, groups), 0, length)
  {
    var ends := GetSplitIndexes(length, groups);
    forall k | 0 <= k < groups
      ensures Cut(ends, 0, k) <= ends[k]
    {
      if k > 0 {
        assert ends[k - 1] <= ends[k];
      }
    }
  }
}
