/**
  Sequence arithmetic shared by the sweep helpers and the strategy simulator.
  Every numeric value of the program is a `double`; here it is an exact `real`,
  so rounding, infinities and NaN are abstracted away.
 */
module Series {

  /** The last element, written `result[-1]` on the program's matrix type. */
  function Last<T>(s: seq<T>): T
    requires |s| > 0
  {
    s[|s| - 1]
  }

  /** A value after one period that changed it by the fraction `change`. */
  function Compound(value: real, change: real): real
  {
    value * (1.0 + change)
  }

  /** A change scaled by the exposure `m`. */
  function Scale(m: real, change: real): real
  {
    m * change
  }

  /** Growth of one unit compounded over every change in `s`, in order. */
  function Compounded(s: seq<real>): real
  {
    if |s| == 0 then 1.0 else Compound(Compounded(s[..|s| - 1]), s[|s| - 1])
  }

  /** Every change of `s` scaled by `m`. */
  function Scaled(m: real, s: seq<real>): seq<real>
  {
    seq(|s|, j requires 0 <= j < |s| => Scale(m, s[j]))
  }

  function Pow(b: real, e: nat): real
  {
    if e == 0 then 1.0 else Pow(b, e - 1) * b
  }

  /** Smallest element of a non-empty sequence (the matrix type's `min()`). */
  function SeqMin(s: seq<real>): (m: real)
    requires |s| > 0
    ensures m in s
    ensures forall j :: 0 <= j < |s| ==> m <= s[j]
  {
    if |s| == 1 then s[0]
    else
      var rest := SeqMin(s[1..]);
      if s[0] <= rest then s[0] else rest
  }

  /** Largest element of a non-empty sequence (the matrix type's `max()`). */
  function SeqMax(s: seq<real>): (m: real)
    requires |s| > 0
    ensures m in s
    ensures forall j :: 0 <= j < |s| ==> s[j] <= m
  {
    if |s| == 1 then s[0]
    else
      var rest := SeqMax(s[1..]);
      if s[0] >= rest then s[0] else rest
  }

  /** Adjacent slices join into one. */
  lemma SliceJoin<T>(xs: seq<T>, a: int, b: int, c: int)
    requires 0 <= a <= b <= c <= |xs|
    ensures xs[a..b] + xs[b..c] == xs[a..c]
  {
  }

  /** A non-empty prefix is the shorter prefix and one more element. */
  lemma TakeSnoc<T>(s: seq<T>, k: int)
    requires 0 < k <= |s|
    ensures s[..k] == s[..k - 1] + [s[k - 1]]
  {
  }

  /** Compounding one more change multiplies the growth by its factor. */
  lemma CompoundedSnoc(s: seq<real>, a: real)
    ensures Compounded(s + [a]) == Compound(Compounded(s), a)
  {
    assert (s + [a])[..|s|] == s;
  }

  /** Scaling commutes with appending one change. */
  lemma ScaledSnoc(m: real, s: seq<real>, a: real)
    ensures Scaled(m, s + [a]) == Scaled(m, s) + [Scale(m, a)]
  {
    var l, r := Scaled(m, s + [a]), Scaled(m, s) + [Scale(m, a)];
    assert |l| == |r|;
    forall j | 0 <= j < |l|
      ensures l[j] == r[j]
    {
      if j < |s| {
        assert (s + [a])[j] == s[j];
      }
    }
  }

  /**
    A series that starts at 1 and moves by `Scale(m, x[i])` on every day `i` up
    to `k` is worth, on day `k`, the compounded growth of the scaled changes.
   */
  lemma {:induction false} CompoundedSteps(values: seq<real>, x: seq<real>, m: real, k: nat)
    requires k < |values| == |x| && values[0] == 1.0
    requires forall i :: 1 <= i <= k ==> values[i] == Compound(values[i - 1], Scale(m, x[i]))
    ensures values[k] == Compounded(Scaled(m, x[1..k + 1]))
  {
    if k == 0 {
      assert x[1..1] == [];
    } else {
      CompoundedSteps(values, x, m, k - 1);
      var front := Scaled(m, x[1..k]);
      assert x[1..k + 1] == x[1..k] + [x[k]];
      ScaledSnoc(m, x[1..k], x[k]);
      CompoundedSnoc(front, Scale(m, x[k]));
    }
  }

  /** A constant change `c` compounded over `|s|` periods is `(1 + c)^|s|`. */
  lemma {:induction false} CompoundedConstant(s: seq<real>, c: real)
    requires forall j :: 0 <= j < |s| ==> s[j] == c
    ensures Compounded(s) == Pow(1.0 + c, |s|)
  {
    if |s| > 0 {
      CompoundedConstant(s[..|s| - 1], c);
    }
  }
}
