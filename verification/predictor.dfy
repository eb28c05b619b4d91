/** The single-year cohort-flow transition of `HRPredictor.predict_one_year`
    (core/predictor.py). Headcounts are level vectors (index = level - 1)
    per hiring channel: campus (new graduates) and social (experienced hires).
    One year runs, in order: promotion, attrition against the original
    headcount, hiring totals, social allocation, final structure, summary
    figures and the update of the carried age-mass.
 */
module Predictor {
  import opened Common
  import opened Rounding
  import opened Allocation

  /** The year-invariant parameters of a projection: everything the engine
      reads besides the starting headcounts, the starting ages and the
      carried age-mass. */
  datatype Policy = Policy(
    campusLeavingAges: seq<real>,
    socialLeavingAges: seq<real>,
    socialNewHireAges: seq<real>,
    campusNewHireAge: real,
    campusPromotionRates: seq<real>,
    socialPromotionRates: seq<real>,
    campusAttritionRates: seq<real>,
    socialAttritionRates: seq<real>,
    hiringRatios: seq<real>,
    campusRatio: real,
    targetTotal: int)
  {
    /** Every level-keyed parameter covers exactly the levels 1..7. */
    predicate Valid() {
      && IsLevelVector(campusLeavingAges)
      && IsLevelVector(socialLeavingAges)
      && IsLevelVector(socialNewHireAges)
      && IsLevelVector(campusPromotionRates)
      && IsLevelVector(socialPromotionRates)
      && IsLevelVector(campusAttritionRates)
      && IsLevelVector(socialAttritionRates)
      && IsLevelVector(hiringRatios)
    }
  }

  /** The nine values `predict_one_year` returns. */
  datatype YearResult = YearResult(
    finalCampus: seq<int>,
    finalSocial: seq<int>,
    finalStructure: seq<int>,
    averageLevel: real,
    averageAge: real,
    campusRatio: real,
    campusHiring: int,
    socialHiring: seq<int>,
    totalAge: real)

  /** The `ValueError` raised when the first year has no ages to seed the age-mass. */
  datatype PredictError = MissingFirstYearAges

  // ---------------------------------------------------------------- step 1

  /** `round(h[L] * p[L])`: the people promoted out of one level. */
  function PromotedOut(h: seq<int>, rates: seq<real>, i: nat): (n: int)
    requires i < |h| == |rates|
    ensures IsRoundingOf(h[i] as real * rates[i], n)
  {
    Round(h[i] as real * rates[i])
  }

  /** Headcount after the promotion pass: each level loses its promoted-out
      count and, above level 1, gains the count promoted out of the level below. */
  function AfterPromotion(h: seq<int>, rates: seq<real>): (a: seq<int>)
    requires |h| == |rates|
    ensures |a| == |h|
  {
    seq(|h|, i requires 0 <= i < |h| =>
      h[i] - PromotedOut(h, rates, i) + (if i > 0 then PromotedOut(h, rates, i - 1) else 0))
  }

  lemma {:induction false} PromotionPrefix(h: seq<int>, rates: seq<real>, k: nat)
    requires |h| == |rates|
    requires 0 < k <= |h|
    ensures Sum(AfterPromotion(h, rates)[..k]) == Sum(h[..k]) - PromotedOut(h, rates, k - 1)
    decreases k
  {
    var a := AfterPromotion(h, rates);
    if k == 1 {
      assert a[..1] == [a[0]];
      assert h[..1] == [h[0]];
      assert Sum(a[..1]) == a[0] by { assert a[..1][..0] == []; }
      assert Sum(h[..1]) == h[0] by { assert h[..1][..0] == []; }
    } else {
      PromotionPrefix(h, rates, k - 1);
      SumStep(a, k - 1);
      SumStep(h, k - 1);
    }
  }

  /** Level 1 has no promotion inflow, the inflow of every higher level is
      exactly the outflow of the level below, and so promotion only loses
      the people promoted out of the top level. */
  lemma PromotionConservesBelowTop(h: seq<int>, rates: seq<real>)
    requires |h| == |rates| > 0
    ensures AfterPromotion(h, rates)[0] == h[0] - PromotedOut(h, rates, 0)
    ensures forall i :: 0 < i < |h| ==>
      AfterPromotion(h, rates)[i] - (h[i] - PromotedOut(h, rates, i)) == PromotedOut(h, rates, i - 1)
    ensures Sum(AfterPromotion(h, rates)) == Sum(h) - PromotedOut(h, rates, |h| - 1)
  {
    PromotionPrefix(h, rates, |h|);
    assert AfterPromotion(h, rates)[..|h|] == AfterPromotion(h, rates);
    assert h[..|h|] == h;
  }

  // ---------------------------------------------------------------- step 2

  /** `round(A[L] - h[L] * attrition[L])` for one level. */
  function Retained(promoted: int, original: int, attrition: real): (n: int)
    ensures IsRoundingOf(promoted as real - original as real * attrition, n)
  {
    Round(promoted as real - original as real * attrition)
  }

  /** Headcount after attrition: attrition is computed against the original
      headcount and taken from the post-promotion headcount. */
  function AfterAttrition(h: seq<int>, promotion: seq<real>, attrition: seq<real>): (b: seq<int>)
    requires |h| == |promotion| == |attrition|
    ensures |b| == |h|
    ensures forall i :: 0 <= i < |h| ==>
      IsRoundingOf(AfterPromotion(h, promotion)[i] as real - h[i] as real * attrition[i], b[i])
  {
    var a := AfterPromotion(h, promotion);
    seq(|h|, i requires 0 <= i < |h| => Retained(a[i], h[i], attrition[i]))
  }

  /** With no attrition, the headcount after attrition is the promoted headcount. */
  lemma NoAttritionKeepsPromoted(h: seq<int>, promotion: seq<real>, attrition: seq<real>)
    requires |h| == |promotion| == |attrition|
    requires forall i :: 0 <= i < |h| ==> attrition[i] == 0.0
    ensures AfterAttrition(h, promotion, attrition) == AfterPromotion(h, promotion)
  {
    var a := AfterPromotion(h, promotion);
    var b := AfterAttrition(h, promotion, attrition);
    forall i | 0 <= i < |h|
      ensures b[i] == a[i]
    {
      RoundUnique(a[i] as real, b[i]);
      RoundOfInteger(a[i]);
    }
  }

  /** Pointwise sum of two level vectors. */
  function Merge(x: seq<int>, y: seq<int>): (z: seq<int>)
    requires |x| == |y|
    ensures |z| == |x|
    ensures Sum(z) == Sum(x) + Sum(y)
  {
    var z := seq(|x|, i requires 0 <= i < |x| => x[i] + y[i]);
    SumAdd(x, y, z);
    z
  }

  // ---------------------------------------------------------------- step 3

  /** `round(target_total * campus_ratio)`. */
  function CampusHiring(p: Policy): (n: int)
    ensures IsRoundingOf(p.targetTotal as real * p.campusRatio, n)
  {
    Round(p.targetTotal as real * p.campusRatio)
  }

  /** A fraction in [0, 1] of a non-negative amount lies between 0 and the
      amount. */
  lemma ScaledWithin(t: real, c: real)
    requires t >= 0.0 && 0.0 <= c <= 1.0
    ensures 0.0 <= t * c <= t
  {
    assert t - t * c == t * (1.0 - c);
  }

  /** Taking a fraction in [0, 1] of every level of a non-negative headcount
      gives a total between 0 and the headcount. */
  lemma {:induction false} FractionsWithin(h: seq<int>, rates: seq<real>, terms: seq<real>)
    requires |h| == |rates| == |terms|
    requires forall i :: 0 <= i < |h| ==> h[i] >= 0 && 0.0 <= rates[i] <= 1.0
    requires forall i :: 0 <= i < |h| ==> terms[i] == h[i] as real * rates[i]
    ensures 0.0 <= SumReal(terms) <= Sum(h) as real
    decreases |h|
  {
    if |h| > 0 {
      var n := |h| - 1;
      FractionsWithin(h[..n], rates[..n], terms[..n]);
      assert terms[n] == h[n] as real * rates[n];
      ScaledWithin(h[n] as real, rates[n]);
      assert 0.0 <= terms[n] <= h[n] as real;
      assert SumReal(terms) == SumReal(terms[..n]) + terms[n];
      assert Sum(h) as real == Sum(h[..n]) as real + h[n] as real;
    }
  }

  /** For a ratio in [0, 1] and a non-negative target, campus hiring lies in
      [0, target]. */
  lemma CampusHiringWithinTarget(p: Policy)
    requires p.targetTotal >= 0
    requires 0.0 <= p.campusRatio <= 1.0
    ensures 0 <= CampusHiring(p) <= p.targetTotal
  {
    var x := p.targetTotal as real * p.campusRatio;
    var n := CampusHiring(p);
    ScaledWithin(p.targetTotal as real, p.campusRatio);
    assert 0.0 <= x <= p.targetTotal as real;
    assert -0.5 <= x - n as real <= 0.5;
    assert n as real > -1.0 && n as real < p.targetTotal as real + 1.0;
  }

  /** `target_total - total_B - campus_hiring`; may be negative. */
  function SocialHiringNeeded(bc: seq<int>, bs: seq<int>, p: Policy): (n: int)
    requires |bc| == |bs|
    ensures n + Sum(bc) + Sum(bs) + CampusHiring(p) == p.targetTotal
  {
    p.targetTotal - Sum(Merge(bc, bs)) - CampusHiring(p)
  }

  // ---------------------------------------------------------------- ages

  /** `h[L] * x[L]` for every level. */
  function Times(h: seq<int>, x: seq<real>): (t: seq<real>)
    requires |h| == |x|
    ensures |t| == |h|
  {
    seq(|h|, i requires 0 <= i < |h| => h[i] as real * x[i])
  }

  /** Multiplication distributes over a sum, for a factor known by two names. */
  lemma Distribute(x: real, y: real, b: real, a: real)
    requires b == a
    ensures (x + y) * a == x * a + y * b
  {
  }

  /** Weighting every level of a headcount by the same value `a` gives the
      headcount times `a`. */
  lemma {:induction false} ConstantWeights(h: seq<int>, v: seq<real>, a: real)
    requires |h| == |v|
    requires forall i :: 0 <= i < |v| ==> v[i] == a
    ensures SumReal(Times(h, v)) == Sum(h) as real * a
    decreases |h|
  {
    if |h| > 0 {
      var n := |h| - 1;
      ConstantWeights(h[..n], v[..n], a);
      forall i | 0 <= i < n
        ensures Times(h, v)[i] == Times(h[..n], v[..n])[i]
      {
      }
      assert Times(h, v)[..n] == Times(h[..n], v[..n]);
      Distribute(Sum(h[..n]) as real, h[n] as real, v[n], a);
    }
  }

  /** `sum(h[L] * a[L])`: total age of a headcount with per-level ages; an
      empty headcount has no age. */
  function AgeMass(h: seq<int>, ages: seq<real>): (m: real)
    requires |h| == |ages|
    ensures (forall i :: 0 <= i < |h| ==> h[i] == 0) ==> m == 0.0
  {
    SumRealZero(Times(h, ages));
    SumReal(Times(h, ages))
  }

  /** When every level has the same age, the age-mass is the headcount times
      that age. */
  lemma AgeMassUniform(h: seq<int>, ages: seq<real>, age: real)
    requires |h| == |ages|
    requires forall i :: 0 <= i < |ages| ==> ages[i] == age
    ensures AgeMass(h, ages) == Sum(h) as real * age
  {
    ConstantWeights(h, ages, age);
  }

  /** `sum(h[L] * attrition[L])`: the expected number of leavers. With rates
      in [0, 1] it lies between none and the whole headcount, and with no
      attrition nobody leaves. */
  function Leavers(h: seq<int>, attrition: seq<real>): (n: real)
    requires |h| == |attrition|
    ensures (forall i :: 0 <= i < |h| ==> h[i] >= 0 && 0.0 <= attrition[i] <= 1.0) ==>
              0.0 <= n <= Sum(h) as real
    ensures (forall i :: 0 <= i < |h| ==> attrition[i] == 0.0) ==> n == 0.0
  {
    SumRealZero(Times(h, attrition));
    if forall i :: 0 <= i < |h| ==> h[i] >= 0 && 0.0 <= attrition[i] <= 1.0 then
      FractionsWithin(h, attrition, Times(h, attrition));
      SumReal(Times(h, attrition))
    else
      SumReal(Times(h, attrition))
  }

  /** `sum(h[L] * attrition[L] * leaving_age[L])`: the age-mass that leaves;
      with no attrition nothing leaves. */
  function LeaverAgeMass(h: seq<int>, attrition: seq<real>, ages: seq<real>): (m: real)
    requires |h| == |attrition| == |ages|
    ensures (forall i :: 0 <= i < |h| ==> attrition[i] == 0.0) ==> m == 0.0
  {
    var terms := seq(|h|, i requires 0 <= i < |h| => h[i] as real * attrition[i] * ages[i]);
    SumRealZero(terms);
    SumReal(terms)
  }

  /** The age-mass a year starts from: the carried value when there is one,
      otherwise the sum over levels of campus and social headcount times age,
      which needs both age vectors. */
  function StartingAgeMass(campus: seq<int>, social: seq<int>,
                           campusAges: Option<seq<real>>, socialAges: Option<seq<real>>,
                           previous: Option<real>): (r: Result<real, PredictError>)
    requires |campus| == |social|
    requires campusAges.Some? ==> |campusAges.value| == |campus|
    requires socialAges.Some? ==> |socialAges.value| == |social|
    ensures r.Err? <==> previous.None? && (campusAges.None? || socialAges.None?)
    ensures previous.Some? ==> r == Ok(previous.value)
    ensures previous.None? && r.Ok? ==>
      r.value == AgeMass(campus, campusAges.value) + AgeMass(social, socialAges.value)
  {
    if previous.None? then
      if campusAges.None? || socialAges.None? then
        Err(MissingFirstYearAges)
      else
        var ca, sa := campusAges.value, socialAges.value;
        var both := seq(|campus|, i requires 0 <= i < |campus| =>
          campus[i] as real * ca[i] + social[i] as real * sa[i]);
        SumRealAdd(Times(campus, ca), Times(social, sa), both);
        Ok(SumReal(both))
    else
      Ok(previous.value)
  }

  // ---------------------------------------------------------------- summary

  /** `level * n[level]` for every level. */
  function LevelWeighted(n: seq<int>): (w: seq<int>)
    ensures |w| == |n|
  {
    seq(|n|, i requires 0 <= i < |n| => (i + 1) * n[i])
  }

  /** The headcount-weighted sum of level numbers lies between the smallest
      and the largest level times the headcount. */
  lemma {:induction false} WeightedLevelSum(n: seq<int>)
    requires |n| <= LevelCount
    requires forall i :: 0 <= i < |n| ==> n[i] >= 0
    ensures Sum(n) <= Sum(LevelWeighted(n)) <= LevelCount * Sum(n)
  {
    var w := LevelWeighted(n);
    var top := seq(|n|, i requires 0 <= i < |n| => LevelCount * n[i]);
    forall i | 0 <= i < |n|
      ensures n[i] <= w[i] <= top[i]
    {
      LevelTimes(i + 1, n[i]);
    }
    SumMonotone(n, w);
    SumMonotone(w, top);
    SumScale(n, top, LevelCount);
  }

  // ---------------------------------------------------------------- the year

  /** The year-end headcounts: post-attrition headcounts plus campus hires
      at level 1 and the allocated social hires at every level. */
  datatype Headcounts = Headcounts(
    finalCampus: seq<int>,
    finalSocial: seq<int>,
    finalStructure: seq<int>,
    campusHiring: int,
    socialHiring: seq<int>)

  function YearEndHeadcounts(campus: seq<int>, social: seq<int>, p: Policy): (y: Headcounts)
    requires p.Valid()
    requires IsLevelVector(campus) && IsLevelVector(social)
    ensures IsLevelVector(y.finalCampus) && IsLevelVector(y.finalSocial)
    ensures IsLevelVector(y.finalStructure) && IsLevelVector(y.socialHiring)
    ensures forall i :: 0 <= i < LevelCount ==> y.socialHiring[i] >= 0
    ensures Sum(y.finalStructure) == Sum(y.finalCampus) + Sum(y.finalSocial)
  {
    var bc := AfterAttrition(campus, p.campusPromotionRates, p.campusAttritionRates);
    var bs := AfterAttrition(social, p.socialPromotionRates, p.socialAttritionRates);
    var campusHiring := CampusHiring(p);
    var hires := AllocateSocial(SocialHiringNeeded(bc, bs, p), p.hiringRatios);
    var fc := bc[0 := bc[0] + campusHiring];
    var fs := Merge(bs, hires);
    Headcounts(fc, fs, Merge(fc, fs), campusHiring, hires)
  }

  /** The new age-mass: the starting mass, less the mass of the leavers, plus
      one year for every survivor, plus the mass of campus and social hires. */
  function AgeMassAfterYear(campus: seq<int>, social: seq<int>, startAge: real,
                            campusHiring: int, socialHiring: seq<int>, p: Policy): real
    requires p.Valid()
    requires IsLevelVector(campus) && IsLevelVector(social) && IsLevelVector(socialHiring)
  {
    var currentTotal := Sum(Merge(campus, social));
    var survivors := currentTotal as real
      - (Leavers(campus, p.campusAttritionRates) + Leavers(social, p.socialAttritionRates));
    startAge
      - (LeaverAgeMass(campus, p.campusAttritionRates, p.campusLeavingAges)
         + LeaverAgeMass(social, p.socialAttritionRates, p.socialLeavingAges))
      + survivors * 1.0
      + campusHiring as real * p.campusNewHireAge
      + AgeMass(socialHiring, p.socialNewHireAges)
  }
  /** In a year with no attrition and no hires, nobody leaves or joins and
      everybody grows one year older: the age-mass rises by the headcount. */
  lemma AgeMassWithoutTurnover(campus: seq<int>, social: seq<int>, startAge: real,
                               socialHiring: seq<int>, p: Policy)
    requires p.Valid()
    requires IsLevelVector(campus) && IsLevelVector(social) && IsLevelVector(socialHiring)
    requires forall i :: 0 <= i < LevelCount ==> p.campusAttritionRates[i] == 0.0 && p.socialAttritionRates[i] == 0.0
    requires forall i :: 0 <= i < LevelCount ==> socialHiring[i] == 0
    ensures AgeMassAfterYear(campus, social, startAge, 0, socialHiring, p)
         == startAge + (Sum(campus) + Sum(social)) as real
  {
  }


  /** How a year's summary figures relate to its headcounts: with a
      non-zero total the average level and the average age are the
      level-weighted total and the age-mass per employee, and with a positive
      total the campus ratio is the campus share; a zero total gives 0.0 for
      all three, and a negative one a campus ratio of 0.0. */
  predicate Summarizes(r: YearResult) {
    var total := Sum(r.finalStructure);
    && (total == 0 ==> r.averageLevel == 0.0 && r.averageAge == 0.0 && r.campusRatio == 0.0)
    && (total != 0 ==> r.averageLevel * total as real == Sum(LevelWeighted(r.finalStructure)) as real)
    && (total != 0 ==> r.averageAge * total as real == r.totalAge)
    && (total > 0 ==> r.campusRatio * total as real == Sum(r.finalCampus) as real)
    && (total < 0 ==> r.campusRatio == 0.0)
  }

  /** The summary figures of a year: average level, average age and campus
      ratio, each 0.0 when the predicted total is zero (the campus ratio also
      when it is negative). */
  function Summarize(y: Headcounts, totalAge: real): (r: YearResult)
    requires IsLevelVector(y.finalCampus) && IsLevelVector(y.finalStructure)
    ensures r.finalCampus == y.finalCampus && r.finalSocial == y.finalSocial
    ensures r.finalStructure == y.finalStructure && r.socialHiring == y.socialHiring
    ensures r.campusHiring == y.campusHiring && r.totalAge == totalAge
    ensures Summarizes(r)
  {
    var total := Sum(y.finalStructure);
    YearResult(
      y.finalCampus, y.finalSocial, y.finalStructure,
      Ratio(Sum(LevelWeighted(y.finalStructure)) as real, total),
      Ratio(totalAge, total),
      if total > 0 then Ratio(Sum(y.finalCampus) as real, total) else 0.0,
      y.campusHiring, y.socialHiring, totalAge)
  }

  /** One year of projection from a known starting age-mass. */
  function Project(campus: seq<int>, social: seq<int>, startAge: real, p: Policy): (r: YearResult)
    requires p.Valid()
    requires IsLevelVector(campus) && IsLevelVector(social)
    ensures IsLevelVector(r.finalCampus) && IsLevelVector(r.finalSocial)
    ensures IsLevelVector(r.finalStructure) && IsLevelVector(r.socialHiring)
    ensures forall i :: 0 <= i < LevelCount ==> r.socialHiring[i] >= 0
    ensures Sum(r.finalStructure) == Sum(r.finalCampus) + Sum(r.finalSocial)
    ensures Summarizes(r)
  {
    var y := YearEndHeadcounts(campus, social, p);
    Summarize(y, AgeMassAfterYear(campus, social, startAge, y.campusHiring, y.socialHiring, p))
  }

  /** `predict_one_year`: seeds the age-mass (failing in the first year when
      ages are missing) and projects one year. */
  function PredictOneYear(campus: seq<int>, social: seq<int>,
                          campusAges: Option<seq<real>>, socialAges: Option<seq<real>>,
                          p: Policy, previousTotalAge: Option<real>): (r: Result<YearResult, PredictError>)
    requires p.Valid()
    requires IsLevelVector(campus) && IsLevelVector(social)
    requires campusAges.Some? ==> IsLevelVector(campusAges.value)
    requires socialAges.Some? ==> IsLevelVector(socialAges.value)
    ensures r.Err? <==> previousTotalAge.None? && (campusAges.None? || socialAges.None?)
    ensures previousTotalAge.Some? ==> r == Ok(Project(campus, social, previousTotalAge.value, p))
    ensures r.Ok? ==> IsLevelVector(r.value.finalCampus) && IsLevelVector(r.value.finalSocial)
  {
    var start := StartingAgeMass(campus, social, campusAges, socialAges, previousTotalAge);
    if start.Err? then Err(start.error) else Ok(Project(campus, social, start.value, p))
  }

  // ---------------------------------------------------------------- properties

  /** Campus hires land at level 1 only; every other level keeps its
      post-attrition campus headcount. */
  lemma CampusHiresOnlyAtLevelOne(campus: seq<int>, social: seq<int>, startAge: real, p: Policy)
    requires p.Valid()
    requires IsLevelVector(campus) && IsLevelVector(social)
    ensures var r := Project(campus, social, startAge, p);
            var bc := AfterAttrition(campus, p.campusPromotionRates, p.campusAttritionRates);
            && r.campusHiring == CampusHiring(p)
            && r.finalCampus[0] == bc[0] + r.campusHiring
            && (forall i :: 1 <= i < LevelCount ==> r.finalCampus[i] == bc[i])
            && Sum(r.finalCampus) == Sum(bc) + r.campusHiring
  {
    var y := YearEndHeadcounts(campus, social, p);
    var bc := AfterAttrition(campus, p.campusPromotionRates, p.campusAttritionRates);
    assert y.finalCampus == bc[0 := bc[0] + y.campusHiring];
    SumUpdate(bc, 0, bc[0] + y.campusHiring);
  }

  /** Social hires are the clamped allocation of the social hiring total; the
      final social headcount adds them to the post-attrition headcount, and
      the final structure is campus plus social, level by level. */
  lemma FinalStructureComposition(campus: seq<int>, social: seq<int>, startAge: real, p: Policy)
    requires p.Valid()
    requires IsLevelVector(campus) && IsLevelVector(social)
    ensures var r := Project(campus, social, startAge, p);
            var bc := AfterAttrition(campus, p.campusPromotionRates, p.campusAttritionRates);
            var bs := AfterAttrition(social, p.socialPromotionRates, p.socialAttritionRates);
            && r.socialHiring == AllocateSocial(SocialHiringNeeded(bc, bs, p), p.hiringRatios)
            && (forall i :: 0 <= i < LevelCount ==> r.finalSocial[i] == bs[i] + r.socialHiring[i])
            && (forall i :: 0 <= i < LevelCount ==> r.finalStructure[i] == r.finalCampus[i] + r.finalSocial[i])
            && Sum(r.finalStructure) == Sum(r.finalCampus) + Sum(r.finalSocial)
  {
    var r := Project(campus, social, startAge, p);
    SumAdd(r.finalCampus, r.finalSocial, r.finalStructure);
  }

  /** The predicted total overshoots the target by exactly the negative
      social allocations the clamp removed: it equals the target when no
      level needed clamping and is never below it. */
  lemma PredictedTotalAgainstTarget(campus: seq<int>, social: seq<int>, startAge: real, p: Policy)
    requires p.Valid()
    requires IsLevelVector(campus) && IsLevelVector(social)
    ensures var r := Project(campus, social, startAge, p);
            var bc := AfterAttrition(campus, p.campusPromotionRates, p.campusAttritionRates);
            var bs := AfterAttrition(social, p.socialPromotionRates, p.socialAttritionRates);
            var adjusted := AdjustedShares(SocialHiringNeeded(bc, bs, p), p.hiringRatios);
            && Sum(r.finalStructure) == p.targetTotal + Sum(Shortfall(adjusted))
            && Sum(r.finalStructure) >= p.targetTotal
            && ((forall i :: 0 <= i < LevelCount ==> adjusted[i] >= 0) ==> Sum(r.finalStructure) == p.targetTotal)
  {
    var r := Project(campus, social, startAge, p);
    var bc := AfterAttrition(campus, p.campusPromotionRates, p.campusAttritionRates);
    var bs := AfterAttrition(social, p.socialPromotionRates, p.socialAttritionRates);
    var need := SocialHiringNeeded(bc, bs, p);
    var adjusted := AdjustedShares(need, p.hiringRatios);
    CampusHiresOnlyAtLevelOne(campus, social, startAge, p);
    FinalStructureComposition(campus, social, startAge, p);
    SumAdd(bs, r.socialHiring, r.finalSocial);
    ClampSum(adjusted);
    assert r.socialHiring == Clamp(adjusted);
  }

  /** For any year whose summary figures are computed from its headcounts
      (as `Project` guarantees), non-negative channels with a positive total
      give an average level between 1 and 7 and a campus ratio in [0, 1]. */
  lemma SummaryWithinBounds(r: YearResult)
    requires IsLevelVector(r.finalCampus) && IsLevelVector(r.finalSocial) && IsLevelVector(r.finalStructure)
    requires forall i :: 0 <= i < LevelCount ==>
               && r.finalCampus[i] >= 0 && r.finalSocial[i] >= 0
               && r.finalStructure[i] == r.finalCampus[i] + r.finalSocial[i]
    requires Sum(r.finalStructure) > 0
    requires Summarizes(r)
    ensures 1.0 <= r.averageLevel <= 7.0
    ensures 0.0 <= r.campusRatio <= 1.0
  {
    SumAdd(r.finalCampus, r.finalSocial, r.finalStructure);
    WeightedLevelSum(r.finalStructure);
    QuotientBounds(r.averageLevel, Sum(LevelWeighted(r.finalStructure)), Sum(r.finalStructure), 1, 7);
    SumNonNegative(r.finalCampus);
    SumNonNegative(r.finalSocial);
    QuotientBounds(r.campusRatio, Sum(r.finalCampus), Sum(r.finalStructure), 0, 1);
  }

  /** The starting age-mass enters the new age-mass additively and affects
      nothing but the age figures. */
  lemma StartingAgeOnlyShiftsAgeMass(campus: seq<int>, social: seq<int>, startAge: real, delta: real, p: Policy)
    requires p.Valid()
    requires IsLevelVector(campus) && IsLevelVector(social)
    ensures var r := Project(campus, social, startAge, p);
            var s := Project(campus, social, startAge + delta, p);
            && s.totalAge == r.totalAge + delta
            && s.(averageAge := 0.0, totalAge := 0.0) == r.(averageAge := 0.0, totalAge := 0.0)
  {
  }

  /** Once an age-mass is carried over, the per-level ages passed in are
      ignored; without one, the call fails exactly when an age vector is missing. */
  lemma CarriedAgeMassIgnoresAges(campus: seq<int>, social: seq<int>,
                                  ca1: Option<seq<real>>, sa1: Option<seq<real>>,
                                  ca2: Option<seq<real>>, sa2: Option<seq<real>>,
                                  p: Policy, previous: real)
    requires p.Valid()
    requires IsLevelVector(campus) && IsLevelVector(social)
    requires ca1.Some? ==> IsLevelVector(ca1.value)
    requires sa1.Some? ==> IsLevelVector(sa1.value)
    requires ca2.Some? ==> IsLevelVector(ca2.value)
    requires sa2.Some? ==> IsLevelVector(sa2.value)
    ensures PredictOneYear(campus, social, ca1, sa1, p, Some(previous))
         == PredictOneYear(campus, social, ca2, sa2, p, Some(previous))
    ensures PredictOneYear(campus, social, None, sa1, p, None) == Err(MissingFirstYearAges)
    ensures PredictOneYear(campus, social, ca1, None, p, None) == Err(MissingFirstYearAges)
  {
  }

  /** In the first year the age-mass is seeded from the per-level ages:
      campus headcount times campus age plus social headcount times social age. */
  lemma FirstYearSeedsAgeMass(campus: seq<int>, social: seq<int>,
                              campusAges: seq<real>, socialAges: seq<real>, p: Policy)
    requires p.Valid()
    requires IsLevelVector(campus) && IsLevelVector(social)
    requires IsLevelVector(campusAges) && IsLevelVector(socialAges)
    ensures PredictOneYear(campus, social, Some(campusAges), Some(socialAges), p, None)
         == Ok(Project(campus, social, AgeMass(campus, campusAges) + AgeMass(social, socialAges), p))
  {
    var start := StartingAgeMass(campus, social, Some(campusAges), Some(socialAges), None);
    assert start == Ok(AgeMass(campus, campusAges) + AgeMass(social, socialAges));
  }
}
