/** Shared vocabulary of the workforce projection model: optional values,
    results with an error, the seven-level vectors the engine works on, and
    sums over integer and real sequences together with the facts about sums
    that the engine's proofs rely on.
 */
module Common {

  /** A value that may be absent (Python's `Optional[...]`, `None`). */
  datatype Option<+T> = None | Some(value: T)

  /** The outcome of an operation that can raise: `Ok` carries the value,
      `Err` the error the Python code would raise. */
  datatype Result<+T, +E> = Ok(value: T) | Err(error: E)

  /** Levels run from 1 (entry) to 7 (most senior). */
  const MinLevel: int := 1
  const MaxLevel: int := 7
  const LevelCount: nat := 7

  /** A level-keyed dictionary over the key universe 1..7, stored at index level-1. */
  predicate IsLevelVector<T>(s: seq<T>) {
    |s| == LevelCount
  }

  /** Python's `sum` over integers; the sum of the empty sequence is 0. */
  function Sum(s: seq<int>): int
  {
    if |s| == 0 then 0 else Sum(s[..|s| - 1]) + s[|s| - 1]
  }

  /** Python's `sum` over reals. */
  function SumReal(s: seq<real>): real
  {
    if |s| == 0 then 0.0 else SumReal(s[..|s| - 1]) + s[|s| - 1]
  }

  lemma SumStep(s: seq<int>, k: nat)
    requires k < |s|
    ensures Sum(s[..k + 1]) == Sum(s[..k]) + s[k]
  {
    assert s[..k + 1][..k] == s[..k];
  }

  lemma SumRealStep(s: seq<real>, k: nat)
    requires k < |s|
    ensures SumReal(s[..k + 1]) == SumReal(s[..k]) + s[k]
  {
    assert s[..k + 1][..k] == s[..k];
  }

  /** Changing one element changes the sum by exactly the difference. */
  lemma {:induction false} SumUpdate(s: seq<int>, k: nat, v: int)
    requires k < |s|
    ensures Sum(s[k := v]) == Sum(s) - s[k] + v
    decreases |s|
  {
    var n := |s| - 1;
    var t := s[k := v];
    assert t[..n] == if k == n then s[..n] else s[..n][k := v];
    if k < n {
      SumUpdate(s[..n], k, v);
    }
  }

  /** The sum of a pointwise sum is the sum of the sums. */
  lemma {:induction false} SumAdd(a: seq<int>, b: seq<int>, c: seq<int>)
    requires |a| == |b| == |c|
    requires forall i :: 0 <= i < |c| ==> c[i] == a[i] + b[i]
    ensures Sum(c) == Sum(a) + Sum(b)
    decreases |c|
  {
    if |c| > 0 {
      var n := |c| - 1;
      SumAdd(a[..n], b[..n], c[..n]);
    }
  }

  /** The sum is monotone in every element. */
  lemma {:induction false} SumMonotone(a: seq<int>, b: seq<int>)
    requires |a| == |b|
    requires forall i :: 0 <= i < |a| ==> a[i] <= b[i]
    ensures Sum(a) <= Sum(b)
    decreases |a|
  {
    if |a| > 0 {
      var n := |a| - 1;
      SumMonotone(a[..n], b[..n]);
    }
  }

  /** Scaling every element scales the sum. */
  lemma {:induction false} SumScale(a: seq<int>, b: seq<int>, k: int)
    requires |a| == |b|
    requires forall i :: 0 <= i < |a| ==> b[i] == k * a[i]
    ensures Sum(b) == k * Sum(a)
    decreases |a|
  {
    if |a| > 0 {
      var n := |a| - 1;
      SumScale(a[..n], b[..n], k);
    }
  }

  /** A sum of non-negative elements is non-negative. */
  lemma {:induction false} SumNonNegative(a: seq<int>)
    requires forall i :: 0 <= i < |a| ==> a[i] >= 0
    ensures Sum(a) >= 0
    decreases |a|
  {
    if |a| > 0 {
      SumNonNegative(a[..|a| - 1]);
    }
  }

  /** A sum of zeros is zero. */
  lemma {:induction false} SumZero(a: seq<int>)
    requires forall i :: 0 <= i < |a| ==> a[i] == 0
    ensures Sum(a) == 0
    decreases |a|
  {
    if |a| > 0 {
      SumZero(a[..|a| - 1]);
    }
  }

  /** A sum whose only non-zero element is the first is that element. */
  lemma {:induction false} SumOfFirst(s: seq<int>)
    requires |s| > 0
    requires forall i :: 0 < i < |s| ==> s[i] == 0
    ensures Sum(s) == s[0]
    decreases |s|
  {
    if |s| > 1 {
      SumOfFirst(s[..|s| - 1]);
    }
  }

  /** The same for a real sum. */
  lemma {:induction false} SumRealOfFirst(s: seq<real>)
    requires |s| > 0
    requires forall i :: 0 < i < |s| ==> s[i] == 0.0
    ensures SumReal(s) == s[0]
    decreases |s|
  {
    if |s| > 1 {
      SumRealOfFirst(s[..|s| - 1]);
    }
  }

  /** Real counterparts of the facts above. */
  lemma {:induction false} SumRealMonotone(a: seq<real>, b: seq<real>)
    requires |a| == |b|
    requires forall i :: 0 <= i < |a| ==> a[i] <= b[i]
    ensures SumReal(a) <= SumReal(b)
    decreases |a|
  {
    if |a| > 0 {
      var n := |a| - 1;
      SumRealMonotone(a[..n], b[..n]);
    }
  }

  lemma {:induction false} SumRealZero(a: seq<real>)
    ensures (forall i :: 0 <= i < |a| ==> a[i] == 0.0) ==> SumReal(a) == 0.0
    decreases |a|
  {
    if |a| > 0 {
      SumRealZero(a[..|a| - 1]);
    }
  }

  lemma {:induction false} SumRealAdd(a: seq<real>, b: seq<real>, c: seq<real>)
    requires |a| == |b| == |c|
    requires forall i :: 0 <= i < |c| ==> c[i] == a[i] + b[i]
    ensures SumReal(c) == SumReal(a) + SumReal(b)
    decreases |c|
  {
    if |c| > 0 {
      var n := |c| - 1;
      SumRealAdd(a[..n], b[..n], c[..n]);
    }
  }

  lemma {:induction false} SumRealScale(a: seq<real>, b: seq<real>, k: real)
    requires |a| == |b|
    requires forall i :: 0 <= i < |a| ==> b[i] == k * a[i]
    ensures SumReal(b) == k * SumReal(a)
    decreases |a|
  {
    if |a| > 0 {
      var n := |a| - 1;
      SumRealScale(a[..n], b[..n], k);
    }
  }

  /** Summing integers and then converting equals converting and then summing. */
  lemma {:induction false} SumAsReal(a: seq<int>, b: seq<real>)
    requires |a| == |b|
    requires forall i :: 0 <= i < |a| ==> b[i] == a[i] as real
    ensures SumReal(b) == Sum(a) as real
    decreases |a|
  {
    if |a| > 0 {
      var n := |a| - 1;
      SumAsReal(a[..n], b[..n]);
    }
  }

  /** `x / d` when `d` is not zero, else 0.0. */
  function Ratio(x: real, d: int): (r: real)
    ensures d == 0 ==> r == 0.0
    ensures d != 0 ==> r * d as real == x
  {
    if d != 0 then x / d as real else 0.0
  }

  /** Bounds a weighted mean: when `lo * d <= x <= hi * d` and `d > 0`, the
      quotient lies in [lo, hi]. */
  lemma RatioBounds(x: int, d: int, lo: int, hi: int)
    requires d > 0
    requires lo * d <= x <= hi * d
    ensures lo as real <= Ratio(x as real, d) <= hi as real
  {
  }

  /** The same bound for any `q` with `q * d == x`. */
  lemma QuotientBounds(q: real, x: int, d: int, lo: int, hi: int)
    requires d > 0
    requires q * d as real == x as real
    requires lo * d <= x <= hi * d
    ensures lo as real <= q <= hi as real
  {
    RatioBounds(x, d, lo, hi);
    assert q == Ratio(x as real, d);
  }

  /** A level number times a non-negative headcount lies between the
      headcount and seven times it. */
  lemma LevelTimes(level: int, x: int)
    requires MinLevel <= level <= MaxLevel && x >= 0
    ensures x <= level * x <= LevelCount * x
  {
  }
}
