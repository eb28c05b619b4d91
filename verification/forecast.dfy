/** `HRPredictor.predict_multiple_years` (core/predictor.py): the single-year
    step applied once per forecast year, each year's final campus and social
    headcounts and age-mass threaded into the next year. Ages are passed in
    the first year only; later years pass the carried age-mass instead.
 */
module Forecast {
  import opened Common
  import opened Predictor
  import opened Iteration

  /** The parameter dictionary a forecast starts from. */
  datatype InitialParams = InitialParams(
    campusEmployees: seq<int>,
    socialEmployees: seq<int>,
    campusAges: seq<real>,
    socialAges: seq<real>,
    policy: Policy)
  {
    predicate Valid() {
      && IsLevelVector(campusEmployees)
      && IsLevelVector(socialEmployees)
      && IsLevelVector(campusAges)
      && IsLevelVector(socialAges)
      && policy.Valid()
    }
  }

  /** One entry of the result list: the year number, the headcounts the
      year started from and the values `predict_one_year` returned. */
  datatype YearRecord = YearRecord(
    year: int,
    currentCampus: seq<int>,
    currentSocial: seq<int>,
    result: YearResult)

  /** The year's final headcounts are level vectors, as every later year's
      input must be. */
  predicate Carries(y: YearResult) {
    IsLevelVector(y.finalCampus) && IsLevelVector(y.finalSocial)
  }

  /** Year 1: the initial headcounts with the initial ages and no carried
      age-mass. */
  function FirstYear(init: InitialParams): (y: YearResult)
    requires init.Valid()
    ensures Carries(y)
    ensures Ok(y) == PredictOneYear(init.campusEmployees, init.socialEmployees,
                                    Some(init.campusAges), Some(init.socialAges), init.policy, None)
  {
    PredictOneYear(init.campusEmployees, init.socialEmployees,
                   Some(init.campusAges), Some(init.socialAges), init.policy, None).value
  }

  /** Year 1 is the projection of the initial headcounts from the age-mass
      seeded by the initial ages. */
  lemma FirstYearProjects(init: InitialParams)
    requires init.Valid()
    ensures FirstYear(init) == Project(init.campusEmployees, init.socialEmployees,
                                       AgeMass(init.campusEmployees, init.campusAges)
                                       + AgeMass(init.socialEmployees, init.socialAges),
                                       init.policy)
  {
    FirstYearSeedsAgeMass(init.campusEmployees, init.socialEmployees,
                          init.campusAges, init.socialAges, init.policy);
  }

  /** Years 2 onwards: the projection of the previous year's final
      headcounts from the previous year's age-mass. A previous year without
      level vectors (which no forecast produces) is passed through unchanged. */
  function NextYear(p: Policy, previous: YearResult): (next: YearResult)
    ensures p.Valid() && Carries(previous) ==>
              && Carries(next)
              && next == Project(previous.finalCampus, previous.finalSocial, previous.totalAge, p)
  {
    if p.Valid() && Carries(previous) then
      PredictOneYear(previous.finalCampus, previous.finalSocial, None, None,
                     p, Some(previous.totalAge)).value
    else
      previous
  }

  /** Year 1's record: the initial headcounts and the first year's result. */
  function FirstRecord(init: InitialParams): (r: YearRecord)
    requires init.Valid()
  {
    YearRecord(1, init.campusEmployees, init.socialEmployees, FirstYear(init))
  }

  /** The record of the year after `r`: it starts from `r`'s final
      headcounts and carries on from `r`'s age-mass. */
  function NextRecord(p: Policy, r: YearRecord): (next: YearRecord)
  {
    YearRecord(r.year + 1, r.result.finalCampus, r.result.finalSocial, NextYear(p, r.result))
  }

  function NextRecordOf(p: Policy): YearRecord -> YearRecord {
    r => NextRecord(p, r)
  }

  /** `predict_multiple_years(initial_params, forecast_years)`: one record
      per year 1..forecast_years (none when the horizon is not positive),
      each holding the headcounts the year started from and its result;
      the loop's carried state is the previous record. */
  function PredictMultipleYears(init: InitialParams, years: int): (recs: seq<YearRecord>)
    requires init.Valid()
    ensures |recs| == if years > 0 then years else 0
  {
    if years <= 0 then [] else Trajectory(NextRecordOf(init.policy), FirstRecord(init), years)
  }

  /** The records are numbered 1, 2, ... in order. */
  lemma ForecastYears(init: InitialParams, years: int)
    requires init.Valid()
    ensures var recs := PredictMultipleYears(init, years);
            forall k :: 0 <= k < |recs| ==> recs[k].year == k + 1
  {
    if years > 0 {
      assert forall r :: NextRecordOf(init.policy)(r).year == r.year + 1;
      TrajectoryCounts(NextRecordOf(init.policy), (r: YearRecord) => r.year, FirstRecord(init), years);
    }
  }

  /** `next` is the year after `prev`: it starts from `prev`'s final
      headcounts, and running the single-year step on them with no ages and
      `prev`'s age-mass yields `next`'s result. */
  predicate Follows(p: Policy, prev: YearRecord, next: YearRecord) {
    && p.Valid()
    && Carries(prev.result)
    && next.currentCampus == prev.result.finalCampus
    && next.currentSocial == prev.result.finalSocial
    && Ok(next.result) == PredictOneYear(prev.result.finalCampus, prev.result.finalSocial,
                                         None, None, p, Some(prev.result.totalAge))
  }

  /** Chaining: the first year starts from the initial headcounts with the
      age-mass seeded from the initial ages; every later year starts from the
      previous year's final headcounts, and re-running the single-year step
      on them with the previous year's age-mass (and no ages) reproduces it. */
  lemma ForecastChains(init: InitialParams, years: int)
    requires init.Valid()
    ensures var recs := PredictMultipleYears(init, years);
            years > 0 ==>
              && recs[0].currentCampus == init.campusEmployees
              && recs[0].currentSocial == init.socialEmployees
              && Ok(recs[0].result) == PredictOneYear(init.campusEmployees, init.socialEmployees,
                                                      Some(init.campusAges), Some(init.socialAges),
                                                      init.policy, None)
    ensures var recs := PredictMultipleYears(init, years);
            forall k :: 0 <= k && k + 1 < |recs| ==> Follows(init.policy, recs[k], recs[k + 1])
  {
    if years > 0 {
      var step := NextRecordOf(init.policy);
      var recs := PredictMultipleYears(init, years);
      TrajectoryInvariant(step, (r: YearRecord) => Carries(r.result), FirstRecord(init), years);
      forall k | 0 <= k && k + 1 < years
        ensures && Carries(recs[k].result)
                && recs[k + 1] == NextRecord(init.policy, recs[k])
      {
        TrajectorySteps(step, FirstRecord(init), years, k);
      }
    }
  }

  /** A shorter forecast is a prefix of a longer one: the first M years do
      not depend on how many years are forecast in all. */
  lemma ForecastPrefix(init: InitialParams, m: int, n: int)
    requires init.Valid()
    requires m <= n
    ensures var short := PredictMultipleYears(init, m);
            var long := PredictMultipleYears(init, n);
            |short| <= |long| && short == long[..|short|]
  {
    if m > 0 {
      TrajectoryPrefix(NextRecordOf(init.policy), FirstRecord(init), m, n);
    }
  }
}
