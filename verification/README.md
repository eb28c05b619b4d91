# Workforce structure projection — a Dafny model

This project models the projection engine of a workforce-planning tool.
The organisation has seven job levels (1..7) and two hiring channels:
*campus* (new graduates) and *social* (experienced hires). Each year is
projected in the following steps:

- **Promotion.** Every level loses `round(h[L] * p[L])` people, and each
  level above 1 gains the same count from the level below.
- **Attrition.** Attrition is computed against the original headcount and
  taken from the post-promotion one.
- **Campus hiring.** Campus hires are `round(target * campus_ratio)`, all
  added at level 1.
- **Social hiring.** The social hiring total is what is still missing to
  reach the target. It is split across the levels by the hiring ratios. The
  rounding residual goes to the first level with the largest rounded share,
  and every share is clamped at zero.
- **Summary.** The year reports the average level, the average age and the
  campus ratio, and updates a carried total age-mass.

A multi-year forecast repeats that step. Each year starts from the previous
year's final headcounts and age-mass.

The tool also loads per-level parameters from a table, which the model
covers too:

- the parser for `L1`..`L7` level codes;
- the column checks and NaN filling applied on load;
- the current headcount metrics;
- the reshaping of rows into level-keyed parameter maps.

Modules, one per file:

- `Common` (common.dfy): level vectors (`seq`s of length 7 indexed by
  level − 1), `Result`/`Option`, integer and real sums, and the guarded
  division `Ratio`.
- `Rounding` (rounding.dfy): Python's `round`, which rounds half to even.
- `Allocation` (allocation.dfy): the social hiring allocation. It covers the
  rounded shares, the residual going to the first maximal share, and the
  clamp.
- `Predictor` (predictor.dfy): `HRPredictor.predict_one_year`.
- `Iteration` (iteration.dfy): a generic run of a one-step transition. It
  holds the induction proofs about the forecast loop: step, prefix,
  invariant and counter.
- `Forecast` (forecast.dfy): `HRPredictor.predict_multiple_years`, written
  as such a run over year records.
- `DataProcessor` (data_processor.dfy) covers `DataProcessor`:
  - `normalize_level`;
  - the checks of `load_preset_from_csv`, applied to an already-parsed table;
  - `calculate_current_metrics`;
  - `prepare_prediction_params`;
  - the hand-off of the prepared maps to the forecast, where a missing
    level makes the engine's dictionary lookup fail.
- `Scenarios` (scenarios.dfy): a worked single-year example, proved value
  by value. Only level 1 is staffed, with 100 campus and 100 social
  employees. There is no promotion, attrition is 10 %, all social hiring
  goes to level 1, the campus ratio is 0.5 and the target is 200. The
  expected outcome:
  - 90 + 90 remain after attrition and 100 campus hires are made;
  - the social need is −80, which is clamped to no hires;
  - the year ends with 190 campus and 90 social employees at level 1;
  - the age-mass grows by 1580.

Rates and ages are exact `real`s. Headcounts are unbounded `int`s. The
loader stores the headcount columns as fixed-width numpy integers, and the
model does not reproduce their wrap-around (see "Left out").

## Model

| member | source | states |
|---|---|---|
| Rounding.Round | core/predictor.py:85 | `round(x)` is an integer at most one half from `x`, and the even one when `x` lies exactly halfway (Python 3 round-half-to-even) |
| Rounding.RoundUnique | core/predictor.py:85 | exactly one integer satisfies that rounding specification, so it characterises `round` completely |
| Rounding.RoundOfInteger | core/predictor.py:85 | a whole number rounds to itself, so a rate of 0 or 1 promotes nobody or everybody exactly |
| Rounding.RoundNegate | core/predictor.py:119 | rounding is symmetric about zero, which matters because the social hiring total may be negative |
| Rounding.RoundNonNegative | core/predictor.py:114 | a non-negative product never rounds to a negative count |
| Rounding.RoundMonotone | core/predictor.py:114 | rounding preserves order |
| Allocation.Share | core/predictor.py:119 | one level's share is the rounding of total × ratio |
| Allocation.InitialShares | core/predictor.py:118-121 | one share per level, each the rounding of total × that level's ratio |
| Allocation.FirstMaxIndex | core/predictor.py:128 | `max(range, key=)`: an index whose value no entry exceeds and that every earlier entry is strictly below, i.e. the first maximum |
| Allocation.Reconcile | core/predictor.py:123-129 | after the adjustment the shares sum to the social total exactly; only the first maximal share changes; nothing changes when the rounded shares already match |
| Allocation.Clamp | core/predictor.py:131-134 | every entry becomes `max(0, x)`: non-negative entries are kept, negative ones become 0 |
| Allocation.ClampSum | core/predictor.py:131-134 | clamping adds exactly the total size of the negative entries to the sum, and changes nothing when none is negative |
| Allocation.AdjustedShares | core/predictor.py:118-129 | the shares after the residual adjustment: one per level, adding up to the social total exactly |
| Allocation.AllocateSocial | core/predictor.py:118-134 | social hires are non-negative, add up to at least the social total, and to exactly it when no adjusted share is negative |
| Allocation.AllocationReconciles | core/predictor.py:118-134 | the adjusted shares sum to the total; the whole residual lands on the first level with the largest rounded share; no other level changes; each hire count is the adjusted share clamped at 0 |
| Predictor.AfterPromotion | core/predictor.py:83-94 | one post-promotion count per level; its flows are stated by `PromotionConservesBelowTop` |
| Predictor.PromotedOut | core/predictor.py:85-86 | the number promoted out of a level is the rounding of headcount × promotion rate |
| Predictor.PromotionPrefix | core/predictor.py:83-94 | over the first k levels, promotion removes exactly the people promoted out of level k; all inner flows cancel |
| Predictor.PromotionConservesBelowTop | core/predictor.py:83-94 | level 1 gains nobody; every higher level gains exactly the lower level's outflow; the post-promotion total is the original total less the outflow of level 7 |
| Predictor.Retained | core/predictor.py:98 | a level's post-attrition count is the rounding of the promoted count less original headcount × attrition rate |
| Predictor.AfterAttrition | core/predictor.py:97-105 | attrition is computed against the original headcount and taken from the post-promotion headcount, level by level, then rounded |
| Predictor.NoAttritionKeepsPromoted | core/predictor.py:97-105 | with zero attrition rates the post-attrition headcount is the post-promotion headcount |
| Predictor.Merge | core/predictor.py:107-110 | the level-by-level sum of two channels totals the two channels' totals |
| Predictor.CampusHiring | core/predictor.py:114 | campus hiring is the rounding of target × campus ratio |
| Predictor.CampusHiringWithinTarget | core/predictor.py:114 | for a campus ratio in [0, 1] and a non-negative target, campus hiring lies between 0 and the target |
| Predictor.SocialHiringNeeded | core/predictor.py:113-115 | the social total, the post-attrition totals of both channels and campus hiring add up to the target; the social total may be negative |
| Predictor.StartingAgeMass | core/predictor.py:167-179 | the age-mass a year starts from: the carried value when given; otherwise the sum of headcount × age over both channels; an error exactly when there is no carried value and either age vector is absent |
| Predictor.WeightedLevelSum | core/predictor.py:156-157 | the level-weighted headcount lies between the headcount and seven times it |
| Predictor.YearEndHeadcounts | core/predictor.py:97-150 | the final headcounts are level vectors; social hires are non-negative; the final structure totals campus plus social |
| Predictor.Summarize | core/predictor.py:152-159 | the average level is the level-weighted total per employee, and the average age is the age-mass per employee; with a positive total the campus ratio is the campus share; a zero total gives 0.0 for all three |
| Predictor.Project | core/predictor.py:214-221 | the projected year satisfies the same summary relations, including the 0.0 guards for a zero total and the campus-ratio guard for a non-positive one |
| Predictor.PredictOneYear | core/predictor.py:168-179 | fails exactly when there is no carried age-mass and an age vector is missing; with a carried age-mass it is the projection from that mass |
| Predictor.CampusHiresOnlyAtLevelOne | core/predictor.py:137-140 | `final_campus[1]` = post-attrition campus at level 1 + campus hiring; every other level keeps its post-attrition campus count |
| Predictor.FinalStructureComposition | core/predictor.py:142-150 | social hires are the clamped allocation of the social total; `final_social[L]` = post-attrition social + hires; `final_structure[L]` = campus + social at every level |
| Predictor.PredictedTotalAgainstTarget | core/predictor.py:113-153 | the predicted total equals the target plus the headcount the clamp added, so it is never below the target and hits it exactly when no allocation was negative |
| Predictor.SummaryWithinBounds | core/predictor.py:152-221 | for any year whose summary figures are computed from its headcounts (which `Project` guarantees), with non-negative channels and a positive total, the average level lies in [1, 7] and the campus ratio in [0, 1] |
| Predictor.StartingAgeOnlyShiftsAgeMass | core/predictor.py:206-212 | the starting age-mass enters the new age-mass additively, and changes nothing but the age figures |
| Predictor.CarriedAgeMassIgnoresAges | core/predictor.py:168-179 | once an age-mass is carried, the per-level ages passed in make no difference; without one, a missing age vector is the error |
| Predictor.FirstYearSeedsAgeMass | core/predictor.py:173-177 | the first year's age-mass is Σ campus × campus age + Σ social × social age |
| Predictor.AgeMass | core/predictor.py:173-177 | the total age of a headcount, Σ headcount × age; an empty headcount has total age 0 |
| Predictor.AgeMassUniform | core/predictor.py:173-177 | when every level has the same age, the total age is the headcount times that age |
| Predictor.Leavers | core/predictor.py:182-190 | the expected leavers Σ headcount × attrition rate lie between 0 and the headcount for rates in [0, 1], and are 0 with no attrition |
| Predictor.LeaverAgeMass | core/predictor.py:192-200 | the age that leaves, Σ headcount × attrition rate × leaving age, is 0 with no attrition |
| Predictor.AgeMassWithoutTurnover | core/predictor.py:181-212 | with no attrition and no hires, the new age-mass is the starting age-mass plus one year per employee |
| Forecast.FirstYearProjects | core/predictor.py:261-278 | year 1 is the projection of the initial headcounts from the age-mass Σ campus × campus age + Σ social × social age |
| Forecast.NextYear | core/predictor.py:309-312 | every later year is the projection of the previous year's final headcounts from the previous year's total age, and its final headcounts are again level vectors |
| Forecast.PredictMultipleYears | core/predictor.py:250-314 | one record per forecast year, and none for a non-positive horizon |
| Forecast.ForecastYears | core/predictor.py:294-295 | the records are numbered 1, 2, …, N in order |
| Forecast.ForecastChains | core/predictor.py:260-312 | year 1 starts from the initial headcounts with ages from the initial age vectors. Each year k+1 starts from year k's final headcounts, and re-running the step on them with year k's total age and no ages reproduces it |
| Forecast.ForecastPrefix | core/predictor.py:260-314 | the first M years of a forecast do not depend on the horizon: a shorter forecast is a prefix of a longer one |
| DataProcessor.ParseNat | core/data_processor.py:52 | the suffix parses exactly when it is a non-empty string of digits |
| DataProcessor.ParseShow | core/data_processor.py:52 | parsing the decimal digits of a number gives the number back |
| DataProcessor.ShowParse | core/data_processor.py:52 | a digit string without a leading zero is the decimal form of the number it parses to |
| DataProcessor.NormalizeLevel | core/data_processor.py:39-58 | the outcome and its reason match: an accepted level lies in 1..7 and is the parsed suffix. It fails as "not a level code" exactly when the value is not a string starting with `L`, as "not a number" exactly when the suffix is empty or not all digits, and as out of range with the parsed number otherwise |
| DataProcessor.NormalizeLevelCode | core/data_processor.py:39-56 | `"L" + str(n)` becomes n for n in 1..7 and is rejected as out of range for every other n |
| DataProcessor.NormalizeLevelAccepts | core/data_processor.py:51-54 | every accepted value without a leading zero is `"L" + str(level)` |
| DataProcessor.RequiredColumnsPartition | core/data_processor.py:18-36 | the required columns are the level column, the two integer columns and the ten float columns |
| DataProcessor.Absent | core/data_processor.py:80 | a name is reported missing exactly when it is required and not among the table's columns; nothing is missing exactly when all required names are present |
| DataProcessor.MissingColumns | core/data_processor.py:80-82 | the missing-column list holds exactly the required columns the table lacks |
| DataProcessor.TruncateToInt | core/data_processor.py:88 | the cast to `int` truncates towards zero |
| DataProcessor.NormalizeLevels | core/data_processor.py:85 | all levels convert exactly when every row's level is accepted, row by row; otherwise the error is that of the first rejected row |
| DataProcessor.LoadRow | core/data_processor.py:85-91 | a loaded row holds the converted level, NaN headcounts as 0, other headcounts truncated, NaN ages and rates as 0.0 and other values unchanged |
| DataProcessor.LoadPreset | core/data_processor.py:80-91 | loading succeeds exactly when no required column is missing, every level is accepted and no numeric cell holds text; on success every row is loaded as above; the missing-columns error happens exactly when a column is missing, and names exactly those columns |
| DataProcessor.LoadPresetErrorOrder | core/data_processor.py:80-91 | with all columns present, the first row with a rejected level determines the error; with all levels accepted, a text cell in a numeric column is the error |
| DataProcessor.CalculateCurrentMetrics | core/data_processor.py:112-149 | the total is Σ campus + Σ social. With a non-zero total, the average level is the headcount-weighted mean level and the average age is the age-mass per employee. With a positive total, the campus ratio is Σ campus / total. A zero total gives 0.0 for all three, and a negative total gives a campus ratio of 0.0 |
| DataProcessor.MetricsWithinBounds | core/data_processor.py:127-142 | with levels in 1..7, non-negative headcounts and a positive total, the average level lies in [1, 7] and the campus ratio in [0, 1] |
| DataProcessor.UniformAgeIsAverage | core/data_processor.py:133-137 | when every employee has the same age, the average age is that age |
| DataProcessor.LevelsOccur | core/data_processor.py:172 | a level is a key of the prepared maps exactly when some row has it |
| DataProcessor.ByLevel | core/data_processor.py:172 | `set_index('level')[col].to_dict()` has one key per level occurring in the rows |
| DataProcessor.ByLevelLast | core/data_processor.py:172-184 | the value at a level is the column value of the last row with that level |
| DataProcessor.PrepareParams | core/data_processor.py:152-188 | every level-keyed map is keyed by exactly the levels in the rows; `campus_ratio`, `campus_new_hire_age` and `target_total` pass through unchanged |
| DataProcessor.PrepareParamsAtLevel | core/data_processor.py:171-187 | at the level of a row that no later row repeats, every map holds that row's column value |
| DataProcessor.ForecastInput | core/predictor.py:253-276 | the engine can read the dictionary exactly when every map has all levels 1..7; the level vectors it reads are the maps' entries, and the scalars are unchanged |
| DataProcessor.ForecastFromParams | core/predictor.py:250-314 | a non-positive horizon reads nothing and returns no years; otherwise the forecast succeeds exactly when every map has all levels, and then has one record per year |
| DataProcessor.PreparedParamsComplete | core/data_processor.py:171-187 | parameters prepared from rows reach the engine exactly when every level 1..7 has a row |
| Scenarios.SanityPromotion | core/predictor.py:83-94 | with no promotion, every level keeps its headcount |
| Scenarios.SanityAttrition | core/predictor.py:97-105 | 100 at level 1 with 10 % attrition leaves 90 in each channel |
| Scenarios.SanityCampusHiring | core/predictor.py:114 | half of a target of 200 is 100 campus hires |
| Scenarios.SanityNeed | core/predictor.py:113-115 | the social need is 200 − 180 − 100 = −80 |
| Scenarios.SanityAllocation | core/predictor.py:118-134 | the whole −80 falls on level 1 and is clamped to no hires |
| Scenarios.SanityHeadcounts | core/predictor.py:137-150 | the year ends with 190 campus and 90 social employees at level 1 and 280 in all, with no campus employees above level 1, after 100 campus hires and no social hires |
| Scenarios.SanitySocialAboveLevelOne | core/predictor.py:142-145 | no social employees above level 1 |
| Scenarios.SanityAgeTerms | core/predictor.py:173-200 | the age sums of the example: 3000 per channel at age 30, 10 leavers per channel carrying 400, no social-hire age |
| Scenarios.SanityAgeMass | core/predictor.py:181-212 | the age-mass gains 1580: −800 from the leavers, +180 as the survivors age a year, +2200 from campus hires |
| Scenarios.SanityStructure | core/predictor.py:147-150 | the final structure is empty above level 1 |
| Scenarios.SanitySummary | core/predictor.py:152-221 | 280 employees, an average level of 1, a campus ratio of 190/280 and an average age of (start + 1580)/280 |
| Scenarios.SanityFirstYear | core/predictor.py:161-233 | seeded with everyone aged 30, the first year succeeds with 190/90 at level 1, a total age of 7580, an average level of 1 and an average age of 7580/280 |

## Left out

- File I/O: `pd.read_csv` and the blanket re-wrapping of every loading error into a generic `Exception` are left out. Loading is modelled on an already-parsed table of cells (text, number or NaN), and the three failure kinds are kept apart.
- Floating point: rates, ages and products are exact reals. A binary product that lands near .5 may round differently in Python.
- Python `int()` leniency in `normalize_level` is left out: signs, surrounding whitespace, digit-group underscores and non-ASCII decimal digits (such as full-width `３`) are not parsed. So `"L-1"` and `"L 3"` are rejected as not a number, where Python would report `-1` as out of range and accept `" 3"`. Leading zeros are accepted, as in Python.
- DataProcessor.NormalizeLevelAccepts: requires that the code has no leading zero after the `L`, because `"L03"` is accepted as level 3 but is not `"L" + str(3)`.
- pandas' coercion of numeric-looking strings is left out. A text cell in a numeric column is always a loading error. The model reports a single `NonNumeric` error, without naming the column or raising it column by column.
- `create_default_param_df` always raises. It carries no logic and is not modelled.
- The UI, plotting, configuration, synthetic data generation and the Excel export are presentation or randomised I/O, and are not part of this model.
- Level count: the code never checks that the table holds exactly the levels 1..7. Extra levels are carried through `prepare_prediction_params` and never read. A missing level makes the engine's dictionary lookup fail (`ForecastInput` / `ForecastFromParams`).
- Forecast.NextYear: its fallback branch (a previous year without level vectors) never occurs in a forecast and models nothing in the source. It only makes the step function total.
- No unconditional non-negativity of headcounts is claimed. The source clamps only the social hires, never the post-attrition or final headcounts.
- Predictor.AgeMassAfterYear: the age-mass update has no contract of its own, because its body is unfolded in every proof about a projected year and a contract there would be carried into all of them. Its behaviour is stated by `AgeMassWithoutTurnover`, `StartingAgeOnlyShiftsAgeMass` and the worked example.
- Fixed-width integers: `fillna(0).astype(int)` stores the headcount columns as numpy int64 (int32 on some platforms), and `calculate_current_metrics` adds and sums them in that width, which wraps silently on overflow. The model's headcounts are unbounded, so it does not reproduce that wrap-around.
