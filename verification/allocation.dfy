/** Step 4 of the single-year projection: the organisation-wide number of
    social hires is split across the levels by the hiring ratios, each share
    rounded on its own; the whole rounding residual is given to the first
    level with the largest rounded share; finally every share is clamped at 0.
 */
module Allocation {
  import opened Common
  import opened Rounding

  /** One level's rounded share of the social total. */
  function Share(total: int, ratio: real): (n: int)
    ensures IsRoundingOf(total as real * ratio, n)
  {
    Round(total as real * ratio)
  }

  /** `round(total * ratio[L])` for every level. */
  function InitialShares(total: int, ratios: seq<real>): (shares: seq<int>)
    ensures |shares| == |ratios|
    ensures forall i :: 0 <= i < |ratios| ==> IsRoundingOf(total as real * ratios[i], shares[i])
  {
    seq(|ratios|, i requires 0 <= i < |ratios| => Share(total, ratios[i]))
  }

  /** Python's `max(range, key=...)`: the first index holding a maximal value. */
  function FirstMaxIndex(s: seq<int>): (k: nat)
    requires |s| > 0
    ensures k < |s|
    ensures forall j :: 0 <= j < |s| ==> s[j] <= s[k]
    ensures forall j :: 0 <= j < k ==> s[j] < s[k]
    decreases |s|
  {
    if |s| == 1 then 0
    else
      var k := FirstMaxIndex(s[..|s| - 1]);
      if s[|s| - 1] > s[k] then |s| - 1 else k
  }

  /** Adds the residual `total - Sum(shares)` to the first level with the
      largest share when the rounded shares miss the total. */
  function Reconcile(shares: seq<int>, total: int): (adjusted: seq<int>)
    requires |shares| > 0
    ensures |adjusted| == |shares|
    ensures Sum(adjusted) == total
    ensures forall j :: 0 <= j < |shares| && j != FirstMaxIndex(shares) ==> adjusted[j] == shares[j]
    ensures Sum(shares) == total ==> adjusted == shares
  {
    if Sum(shares) != total then
      var k := FirstMaxIndex(shares);
      SumUpdate(shares, k, shares[k] + (total - Sum(shares)));
      shares[k := shares[k] + (total - Sum(shares))]
    else
      shares
  }

  /** `max(0, x)` for every level. */
  function Clamp(s: seq<int>): (c: seq<int>)
    ensures |c| == |s|
    ensures forall i :: 0 <= i < |s| ==> c[i] >= 0 && c[i] >= s[i]
    ensures forall i :: 0 <= i < |s| && s[i] >= 0 ==> c[i] == s[i]
    ensures forall i :: 0 <= i < |s| && s[i] < 0 ==> c[i] == 0
  {
    seq(|s|, i requires 0 <= i < |s| => if s[i] < 0 then 0 else s[i])
  }

  /** The headcount a clamp removes from negative entries. */
  function Shortfall(s: seq<int>): (d: seq<int>)
    ensures |d| == |s|
  {
    seq(|s|, i requires 0 <= i < |s| => if s[i] < 0 then -s[i] else 0)
  }

  /** Clamping adds to the sum exactly the total size of the negative
      entries, and changes nothing when no entry is negative. */
  lemma ClampSum(s: seq<int>)
    ensures Sum(Clamp(s)) == Sum(s) + Sum(Shortfall(s))
    ensures Sum(Shortfall(s)) >= 0
    ensures (forall i :: 0 <= i < |s| ==> s[i] >= 0) ==> Sum(Clamp(s)) == Sum(s)
  {
    SumAdd(s, Shortfall(s), Clamp(s));
    SumNonNegative(Shortfall(s));
    if forall i :: 0 <= i < |s| ==> s[i] >= 0 {
      SumZero(Shortfall(s));
    }
  }

  /** The allocation before the clamp: one share per level, adding up to the
      social total exactly. */
  function AdjustedShares(total: int, ratios: seq<real>): (adjusted: seq<int>)
    requires |ratios| > 0
    ensures |adjusted| == |ratios|
    ensures Sum(adjusted) == total
  {
    Reconcile(InitialShares(total, ratios), total)
  }

  /** The social hires per level: reconciled shares, clamped at zero. */
  function AllocateSocial(total: int, ratios: seq<real>): (hires: seq<int>)
    requires |ratios| > 0
    ensures |hires| == |ratios|
    ensures forall i :: 0 <= i < |hires| ==> hires[i] >= 0
    ensures Sum(hires) >= total
    ensures (forall i :: 0 <= i < |ratios| ==> AdjustedShares(total, ratios)[i] >= 0) ==> Sum(hires) == total
  {
    var adjusted := AdjustedShares(total, ratios);
    ClampSum(adjusted);
    Clamp(adjusted)
  }

  /** The allocation as a whole: the reconciled shares add up to the social
      total, the residual lands on the first level with the largest rounded
      share and no other level changes, and every hire count is that
      adjusted share clamped at zero. */
  lemma AllocationReconciles(total: int, ratios: seq<real>)
    requires |ratios| > 0
    ensures var shares := InitialShares(total, ratios);
            var adjusted := AdjustedShares(total, ratios);
            var k := FirstMaxIndex(shares);
            && Sum(adjusted) == total
            && adjusted[k] == shares[k] + (total - Sum(shares))
            && (forall j :: 0 <= j < |ratios| && j != k ==> adjusted[j] == shares[j])
            && (forall j :: 0 <= j < |ratios| ==> AllocateSocial(total, ratios)[j] == if adjusted[j] < 0 then 0 else adjusted[j])
  {
  }
}
