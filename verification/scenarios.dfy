/** A worked single-year example: only level 1 is staffed, with 100 campus
    and 100 social employees; nobody is promoted, a tenth of every level
    leaves, all social hiring goes to level 1, half of the target of 200 is
    hired from campus. The social need comes out negative (-80) and is
    clamped to zero hires.
 */
module Scenarios {
  import opened Common
  import opened Rounding
  import opened Allocation
  import opened Predictor

  /** The same value at every level. */
  function Flat(x: real): (v: seq<real>)
    ensures IsLevelVector(v)
  {
    [x, x, x, x, x, x, x]
  }

  /** A level vector holding `n` at level 1 and nothing elsewhere. */
  function AtLevelOne(n: int): (v: seq<int>)
    ensures IsLevelVector(v)
    ensures v[0] == n && forall i :: 1 <= i < LevelCount ==> v[i] == 0
  {
    [n, 0, 0, 0, 0, 0, 0]
  }

  /** A vector staffed at level 1 only sums to its level-1 entry. */
  lemma SumAtLevelOne(n: int)
    ensures Sum(AtLevelOne(n)) == n
  {
    SumOfFirst(AtLevelOne(n));
  }

  /** Adding two such vectors adds their level-1 entries. */
  lemma MergeAtLevelOne(x: int, y: int)
    ensures Merge(AtLevelOne(x), AtLevelOne(y)) == AtLevelOne(x + y)
  {
    var z := Merge(AtLevelOne(x), AtLevelOne(y));
    assert forall i :: 0 <= i < LevelCount ==> z[i] == AtLevelOne(x + y)[i];
  }

  const Starting: seq<int> := AtLevelOne(100)

  const SanityPolicy: Policy := Policy(
    Flat(40.0), Flat(40.0), Flat(28.0), 22.0,
    Flat(0.0), Flat(0.0), Flat(0.1), Flat(0.1),
    [1.0, 0.0, 0.0, 0.0, 0.0, 0.0, 0.0],
    0.5, 200)

  /** With no promotion every level keeps its headcount. */
  lemma SanityPromotion()
    ensures AfterPromotion(Starting, Flat(0.0)) == Starting
  {
    RoundOfInteger(0);
    var a := AfterPromotion(Starting, Flat(0.0));
    forall i | 0 <= i < LevelCount
      ensures a[i] == Starting[i]
    {
      assert Starting[i] as real * 0.0 == 0.0;
    }
  }

  /** A tenth of the 100 at level 1 leave in each channel, 90 remain. */
  lemma SanityAttrition()
    ensures AfterAttrition(Starting, Flat(0.0), Flat(0.1)) == AtLevelOne(90)
  {
    SanityPromotion();
    RoundOfInteger(0);
    RoundOfInteger(90);
    var b := AfterAttrition(Starting, Flat(0.0), Flat(0.1));
    forall i | 0 <= i < LevelCount
      ensures b[i] == AtLevelOne(90)[i]
    {
      assert b[i] == Round(Starting[i] as real - Starting[i] as real * 0.1);
      if i == 0 {
        assert Starting[i] as real - Starting[i] as real * 0.1 == 90.0;
      } else {
        assert Starting[i] as real - Starting[i] as real * 0.1 == 0.0;
      }
    }
  }

  /** Half of the target of 200 is hired from campus. */
  lemma SanityCampusHiring()
    ensures CampusHiring(SanityPolicy) == 100
  {
    RoundOfInteger(100);
    assert SanityPolicy.targetTotal as real * SanityPolicy.campusRatio == 100.0;
  }

  /** The social need is 200 - 180 - 100 = -80. */
  lemma SanityNeed()
    ensures SocialHiringNeeded(AtLevelOne(90), AtLevelOne(90), SanityPolicy) == -80
  {
    SanityCampusHiring();
    SumAtLevelOne(90);
  }

  /** The whole negative need lands on level 1 and is clamped to zero. */
  lemma SanityAllocation()
    ensures InitialShares(-80, SanityPolicy.hiringRatios) == AtLevelOne(-80)
    ensures AllocateSocial(-80, SanityPolicy.hiringRatios) == AtLevelOne(0)
  {
    RoundOfInteger(0);
    RoundOfInteger(-80);
    var shares := InitialShares(-80, SanityPolicy.hiringRatios);
    forall i | 0 <= i < LevelCount
      ensures shares[i] == AtLevelOne(-80)[i]
    {
      assert shares[i] == Round(-80.0 * SanityPolicy.hiringRatios[i]);
    }
    assert shares == AtLevelOne(-80);
    SumAtLevelOne(-80);
    assert Clamp(AtLevelOne(-80)) == AtLevelOne(0);
  }

  /** The year ends with 190 campus and 90 social employees at level 1,
      after 100 campus hires and no social hires, whatever the starting
      age-mass; 280 employees in all. */
  lemma SanityHeadcounts(startAge: real)
    ensures var r := Project(Starting, Starting, startAge, SanityPolicy);
            && r.campusHiring == 100
            && r.socialHiring == AtLevelOne(0)
            && r.finalCampus[0] == 190
            && r.finalSocial[0] == 90
            && r.finalStructure[0] == 280
            && forall i :: 1 <= i < LevelCount ==> r.finalCampus[i] == 0
  {
    var p := SanityPolicy;
    var r := Project(Starting, Starting, startAge, p);
    var bc := AfterAttrition(Starting, p.campusPromotionRates, p.campusAttritionRates);
    var bs := AfterAttrition(Starting, p.socialPromotionRates, p.socialAttritionRates);
    assert bc == AtLevelOne(90) && bs == AtLevelOne(90) by { SanityAttrition(); }
    CampusHiresOnlyAtLevelOne(Starting, Starting, startAge, p);
    FinalStructureComposition(Starting, Starting, startAge, p);
    assert r.campusHiring == 100 by { SanityCampusHiring(); }
    assert r.socialHiring == AtLevelOne(0) by { SanityNeed(); SanityAllocation(); }
  }

  /** Above level 1 the social channel stays empty. */
  lemma SanitySocialAboveLevelOne(startAge: real)
    ensures var r := Project(Starting, Starting, startAge, SanityPolicy);
            forall i :: 1 <= i < LevelCount ==> r.finalSocial[i] == 0
  {
    var p := SanityPolicy;
    var r := Project(Starting, Starting, startAge, p);
    var bs := AfterAttrition(Starting, p.socialPromotionRates, p.socialAttritionRates);
    assert bs == AtLevelOne(90) by { SanityAttrition(); }
    SanityHeadcounts(startAge);
    FinalStructureComposition(Starting, Starting, startAge, p);
  }

  /** The per-level products behind the age figures, staffed at level 1 only. */
  lemma SanityAgeTerms()
    ensures AgeMass(Starting, Flat(30.0)) == 3000.0
    ensures Leavers(Starting, Flat(0.1)) == 10.0
    ensures LeaverAgeMass(Starting, Flat(0.1), Flat(40.0)) == 400.0
    ensures AgeMass(AtLevelOne(0), Flat(28.0)) == 0.0
  {
    var mass := seq(LevelCount, i requires 0 <= i < LevelCount => Starting[i] as real * Flat(30.0)[i]);
    var leavers := seq(LevelCount, i requires 0 <= i < LevelCount => Starting[i] as real * Flat(0.1)[i]);
    var leaverMass := seq(LevelCount, i requires 0 <= i < LevelCount =>
      Starting[i] as real * Flat(0.1)[i] * Flat(40.0)[i]);
    var hireMass := seq(LevelCount, i requires 0 <= i < LevelCount => AtLevelOne(0)[i] as real * Flat(28.0)[i]);
    forall i | 0 < i < LevelCount
      ensures mass[i] == 0.0 && leavers[i] == 0.0 && leaverMass[i] == 0.0 && hireMass[i] == 0.0
    {
      assert Starting[i] == 0 && AtLevelOne(0)[i] == 0;
    }
    SumRealOfFirst(mass);
    SumRealOfFirst(leavers);
    SumRealOfFirst(leaverMass);
    SumRealOfFirst(hireMass);
  }

  /** Over the year the age-mass gains 1580: 800 leaves with the 20 leavers,
      the 180 survivors age a year and the 100 campus hires bring 2200. */
  lemma SanityAgeMass(startAge: real)
    ensures Project(Starting, Starting, startAge, SanityPolicy).totalAge == startAge + 1580.0
  {
    var p := SanityPolicy;
    SanityHeadcounts(startAge);
    SanityAgeTerms();
    MergeAtLevelOne(100, 100);
    SumAtLevelOne(200);
    assert AgeMassAfterYear(Starting, Starting, startAge, 100, AtLevelOne(0), p) == startAge + 1580.0;
  }

  /** A vector staffed at level 1 only: its total and its level-weighted
      total are both the level-1 entry. */
  lemma LevelOneTotals(v: seq<int>)
    requires IsLevelVector(v)
    requires forall i :: 1 <= i < LevelCount ==> v[i] == 0
    ensures Sum(v) == v[0] && Sum(LevelWeighted(v)) == v[0]
  {
    SumOfFirst(v);
    SumOfFirst(LevelWeighted(v));
  }

  /** The final structure is empty above level 1. */
  lemma SanityStructure(startAge: real)
    ensures var r := Project(Starting, Starting, startAge, SanityPolicy);
            forall i :: 1 <= i < LevelCount ==> r.finalStructure[i] == 0
  {
    SanityHeadcounts(startAge);
    SanitySocialAboveLevelOne(startAge);
    FinalStructureComposition(Starting, Starting, startAge, SanityPolicy);
  }

  /** The summary figures of a year of 280 employees, all at level 1 and 190
      of them campus. */
  lemma LevelOneSummary(r: YearResult, startAge: real)
    requires Sum(r.finalStructure) == 280 && Sum(LevelWeighted(r.finalStructure)) == 280
    requires Sum(r.finalCampus) == 190 && r.totalAge == startAge + 1580.0
    requires Summarizes(r)
    ensures r.averageLevel == 1.0
    ensures r.campusRatio * 280.0 == 190.0
    ensures r.averageAge * 280.0 == startAge + 1580.0
  {
  }

  /** The summary figures: 280 employees, all at level 1, 190 of them campus. */
  lemma SanitySummary(startAge: real)
    ensures var r := Project(Starting, Starting, startAge, SanityPolicy);
            && Sum(r.finalStructure) == 280
            && r.averageLevel == 1.0
            && r.campusRatio * 280.0 == 190.0
            && r.averageAge * 280.0 == startAge + 1580.0
  {
    var r := Project(Starting, Starting, startAge, SanityPolicy);
    SanityHeadcounts(startAge);
    SanityStructure(startAge);
    LevelOneTotals(r.finalStructure);
    LevelOneTotals(r.finalCampus);
    SanityAgeMass(startAge);
    LevelOneSummary(r, startAge);
  }

  /** The first year seeds the age-mass with 200 employees aged 30 and ends
      with 190 campus and 90 social employees at level 1, an age-mass of 7580
      and an average level of 1. */
  lemma SanityFirstYear()
    ensures var r := PredictOneYear(Starting, Starting, Some(Flat(30.0)), Some(Flat(30.0)), SanityPolicy, None);
            && r == Ok(Project(Starting, Starting, 6000.0, SanityPolicy))
            && r.value.totalAge == 7580.0
            && r.value.averageLevel == 1.0
            && r.value.averageAge * 280.0 == 7580.0
            && r.value.finalCampus[0] == 190 && r.value.finalSocial[0] == 90
  {
    FirstYearSeedsAgeMass(Starting, Starting, Flat(30.0), Flat(30.0), SanityPolicy);
    SanityAgeTerms();
    SanityAgeMass(6000.0);
    SanityHeadcounts(6000.0);
    SanitySummary(6000.0);
  }
}
