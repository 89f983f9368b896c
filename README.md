# MixingCompass core in Dafny

MixingCompass estimates Hansen solubility parameters (HSP). A polymer or
sample is a sphere in (δD, δP, δH) space with centre D, P, H and radius R.
A solvent's distance from the centre is
Ra = sqrt(4·ΔD² + ΔP² + ΔH²), and its relative energy difference is
RED = Ra / R. Solvents that dissolve the sample should have RED < 1;
those that do not should lie outside the sphere.

This project models the parts of the repository that decide those
classifications and manage the data behind them, and it proves properties
of the model:

- **Losses.** The sphere-fitting loss functions score a candidate sphere:
  - the five theory-based losses and their registry, in both the
    application copy and the experimental copy;
  - the continuous L2 and weighted-distance losses;
  - the alternative losses.
- **Evaluation.** The evaluation metrics, the concentric-spheroid objective,
  the accuracy loops and the leave-one-out size-factor selection.
- **Models.** The pydantic models of solvents and experiments, with their
  validators; the HSP calculator's conversion and validation of solvent
  tests.
- **Consolidation scripts.** The scripts that merge the solvent CSV files
  into one table: numeric cleaning, name cleaning, priority scores and the
  duplicate registry. There are two generations of these scripts. Two
  further scripts add common names to the table.
- **Services.** The solvent and polymer services: cleaning, indexing,
  lookup, search, add, update and delete. The experiment data manager:
  search, pagination and its cache. The visualization service: colours,
  points and axis range.
- **API.** The arithmetic of the experiment endpoints and of the SMILES
  prediction export.

Numbers are `real`; Python's NaN and `inf` become explicit `Option`
values or datatype cases. Square roots are avoided: distances are
compared via their squares, and the losses take the RED vector as
input. The transcendental functions (`log`, `exp`, `cosh`) are function
parameters; only the facts a proof needs are stated about them. Numeric
parsing, float formatting, SMILES prediction and database lookups are
also parameters. Files, clocks and identifiers are inputs. A pandas table
is a sequence of rows, and a row is a map from column name to cell. The
dictionaries the services mutate are fields of Dafny classes, updated by
methods with `modifies` clauses.

Where a source file loops and updates state, the model is a method with a
loop. That method is proved equal to a specification function, and the
properties are proved about the function as lemmas. The operations
follow the code as written, including the six defects listed under
"## Findings". For each defect, the intended behaviour is a separate
definition kept beside the as-written one, with its property proved.
Contracts that are deliberately weaker than the code are listed under
"## Left out".

## Model

| member | source | states |
|---|---|---|
| TheoryLoss.Terms | app/services/theory_based_loss.py:34-257 | one per-sample loss per sample, each the formula of the chosen loss for that sample's RED and score |
| TheoryLoss.BoundaryPerSample | app/services/theory_based_loss.py:42-50 | the index loop fills one entry per sample, each the boundary term of that sample |
| TheoryLoss.LogBarrierPerSample | app/services/theory_based_loss.py:134-152 | the index loop fills one entry per sample, each the log-barrier term of that sample |
| TheoryLoss.NormalizedPerSample | app/services/theory_based_loss.py:191-199 | the index loop fills one entry per sample, each the normalized term of that sample |
| TheoryLoss.PerSample | app/services/theory_based_loss.py:42-249 | the per-sample losses of every class, by loop or by array expression, agree with the per-sample formula |
| TheoryLoss.Call | app/services/theory_based_loss.py:34-58 | calling a loss gives the mean of its per-sample terms, plus the size penalty when the factor is set and positive |
| TheoryLoss.GetLossFunction | app/services/theory_based_loss.py:270-294 | a loss is built exactly for the five registered names, with the size factor passed in; any other name is a ValueError whose text is "Unknown loss function: " + name + ". Available: " and the registered names |
| TheoryLoss.AvailableListsRegistry | app/services/theory_based_loss.py:289-292 | the names listed in that ValueError are the keys of `LOSS_FUNCTIONS` in order, joined by ", " |
| TheoryLoss.RegistryDistinct | app/services/theory_based_loss.py:261-267 | the five names build five different losses, and `continuous_l2` is not registered |
| TheoryLoss.BoundaryTermMeaning | app/services/theory_based_loss.py:44-50 | each boundary term is non-negative; it is zero for a good solvent iff RED ≤ 1, for a poor one iff RED ≥ 1, for any other score iff RED = 1 |
| TheoryLoss.BoundaryLossZeroIff | app/services/theory_based_loss.py:44-52 | the mean boundary loss is non-negative and zero exactly when every sample lies where its score asks |
| TheoryLoss.ProportionalTermMeaning | app/services/theory_based_loss.py:92-96 | for a score in [0, 1] the proportional term is non-negative, and it is zero at RED = 1 for any score |
| TheoryLoss.LogBarrierViolations | app/services/theory_based_loss.py:136-152 | the violated branches are 10·(RED − 1 + ε) and 10·(1 + ε − RED), both non-negative; other scores get abs(RED − 1) |
| TheoryLoss.LogBarrierInteriorSign | app/services/theory_based_loss.py:137-139 | with an increasing logarithm, a good solvent's interior barrier is negative exactly when RED < ε |
| TheoryLoss.NormalizedTermMeaning | app/services/theory_based_loss.py:193-199 | for RED ≥ 0 every normalized term is non-negative, a poor solvent's is positive, a good solvent's is RED |
| TheoryLoss.LossWithoutLogNonneg | app/services/theory_based_loss.py:34-207 | the boundary, proportional and normalized losses without size penalty are non-negative for scores in [0, 1] |
| TheoryLoss.ProbabilityAtBoundary | app/services/theory_based_loss.py:242-246 | p = 1/(1 + RED²) is 0.5 at RED = 1, before and after clipping |
| TheoryLoss.ProbabilityNonIncreasing | app/services/theory_based_loss.py:242-246 | p is non-increasing in RED ≥ 0, before and after clipping, and the clipped p stays within [1e-7, 1 − 1e-7] |
| TheoryLoss.CrossEntropyNonneg | app/services/theory_based_loss.py:249 | with a logarithm that is non-positive on (0, 1], each cross-entropy term of a score in [0, 1] is non-negative |
| TheoryLoss.SizePenaltyRule | app/services/theory_based_loss.py:54-58 | the penalty factor·R² is added exactly when the factor is set and positive; otherwise the loss is the plain mean |
| HansenTestTheoryLoss.Call | hansentest/theory_based_loss.py:34-58 | calling a loss of this copy gives the mean of the shared per-sample terms plus this copy's unconditional size penalty |
| HansenTestTheoryLoss.SizePenaltyRule | hansentest/theory_based_loss.py:52-58 | any given factor, zero and negative included, adds factor·R²; without one the loss is the plain mean of the per-sample terms |
| HansenTestTheoryLoss.CompareWithApplication | hansentest/theory_based_loss.py:54-56 | the two copies agree unless the factor is negative; with a negative factor and R ≠ 0 this copy returns strictly less |
| HansenDistance.MetricProperties | app/services/theory_based_loss.py:8-10 | both the plain and the weighted squared distance are non-negative, zero exactly on equal points, and symmetric |
| HansenDistance.WeightedBetween | app/models/hsp_models.py:36-40 | the weighted metric 4·ΔD² + ΔP² + ΔH² lies between the plain one and four times it |
| HansenDistance.RootMonotone | app/services/theory_based_loss.py:10 | a square root is strictly monotone in its square, so distances compare as their squares do |
| HansenDistance.RootZero | hansentest/theory_based_loss.py:8-10 | a distance is zero exactly between equal points, for either metric |
| HansenDistance.RedNonneg | app/models/hsp_models.py:41 | RED = distance / radius is non-negative for a positive radius |
| HansenDistance.RedVersusOne | app/services/theory_based_loss.py:39 | RED < 1, RED = 1 and RED > 1 are exactly dist² < R², dist² = R² and dist² > R² |
| ContinuousLoss.ContinuousTerms | hansentest/continuous_hsp_loss.py:59-60 | one term per sample: y·max(0, RED − 1)² + (1 − y)·max(0, 1 − RED)² |
| ContinuousLoss.WeightedTerms | hansentest/continuous_hsp_loss.py:103-106 | one term per sample: the square of RED minus the target 2 − 1.5·y |
| ContinuousLoss.ContinuousHspLoss.constructor | hansentest/continuous_hsp_loss.py:20-27 | a new loss keeps its size factor and debug flag, has no scores yet and has counted no call |
| ContinuousLoss.ContinuousHspLoss.Call | hansentest/continuous_hsp_loss.py:29-77 | a call records the scores, counts exactly one more call, and returns the mean term plus factor·R² when a factor is given |
| ContinuousLoss.WeightedDistanceLoss.constructor | hansentest/continuous_hsp_loss.py:89-91 | a new loss keeps its size factor and has no scores yet |
| ContinuousLoss.WeightedDistanceLoss.Call | hansentest/continuous_hsp_loss.py:93-111 | a call records the scores and returns the mean squared distance to the target RED plus factor·R when a factor is given |
| ContinuousLoss.ContinuousTermMeaning | hansentest/continuous_hsp_loss.py:59-60 | for a score in [0, 1] each term is non-negative, and zero iff a score above 0 has RED ≤ 1 and a score below 1 has RED ≥ 1 |
| ContinuousLoss.ContinuousLossZeroIff | hansentest/continuous_hsp_loss.py:59-63 | without a size factor the loss is non-negative, and zero exactly when every solvent lies on the side its score asks for |
| ContinuousLoss.TargetRedValues | hansentest/continuous_hsp_loss.py:102-103 | the target is 0.5 for y = 1, 1.25 for y = 0.5 (the comment says 1.0) and 2.0 for y = 0, and it decreases as y grows |
| ContinuousLoss.WeightedLossZeroIff | hansentest/continuous_hsp_loss.py:106 | without a size factor the weighted loss is non-negative, and zero exactly when every RED equals its target |
| ContinuousLoss.SizePenaltyShapes | hansentest/continuous_hsp_loss.py:67-69 | the weighted loss's penalty is linear in R (line 109) and the continuous loss's quadratic: doubling R doubles one and quadruples the other |
| AlternativeLoss.Terms | hansentest/alternative_loss.py:30-261 | one term per sample, each the formula of the chosen alternative loss for that sample's RED and score |
| AlternativeLoss.LossValue | hansentest/alternative_loss.py:30-52 | calling a loss gives NaN (None) exactly for empty data; without a size factor, or with a zero one, it is the mean of the per-sample terms |
| AlternativeLoss.IdealRedValues | hansentest/alternative_loss.py:76-81 | the ideal RED is 1.0 for y = 0.5, 0.5 for other scores ≥ 0.5, and 1.5 below 0.5 |
| AlternativeLoss.AdaptiveTermMeaning | hansentest/alternative_loss.py:84-91 | the adaptive weights are at least 1, so each term is non-negative, and zero exactly at the ideal RED |
| AlternativeLoss.HuberMeaning | hansentest/alternative_loss.py:129-132 | for δ ≥ 0 the Huber value of an error is non-negative, and its quadratic and linear pieces agree at error = δ |
| AlternativeLoss.QuantileMeaning | hansentest/alternative_loss.py:203-215 | for q and y in [0, 1] each term is non-negative, and a good solvent inside the sphere still pays (1 − q)·(1 − RED) |
| AlternativeLoss.HingeTermMeaning | hansentest/alternative_loss.py:250-253 | for a score in [0, 1] each term is non-negative, and zero iff a score above 0 has RED ≤ 1 − margin and a score below 1 has RED ≥ 1 + margin |
| AlternativeLoss.HingeLossZeroIff | hansentest/alternative_loss.py:250-255 | without a size factor the hinge loss is non-negative, and zero exactly when every solvent clears its margin |
| AlternativeLoss.ExponentialMeaning | hansentest/alternative_loss.py:39-46 | with exp(0) = 1 a sample without a boundary violation contributes 0; with an increasing exp no sample contributes a negative amount |
| AlternativeLoss.SizePenaltyRule | hansentest/alternative_loss.py:48-52 | every alternative loss adds factor·R² exactly when a factor is given, otherwise it is the plain mean |
| EvaluationMetrics.GoodPenalties | hansentest/evaluation_metrics.py:41 | one good penalty y·max(0, RED − 1)² per sample |
| EvaluationMetrics.PoorPenalties | hansentest/evaluation_metrics.py:42 | one poor penalty (1 − y)·max(0, 1 − RED)² per sample |
| EvaluationMetrics.EvaluateWithLoss | hansentest/evaluation_metrics.py:13-65 | the metrics exist exactly for non-empty data; the per-sample losses are the continuous L2 terms and the RED values are those given |
| EvaluationMetrics.PenaltyMeansSplit | hansentest/evaluation_metrics.py:41-46 | the base loss is the mean good penalty plus the mean poor penalty |
| EvaluationMetrics.EvaluationMeaning | hansentest/evaluation_metrics.py:46-55 | the total is what ContinuousHSPLoss returns and is base + size penalty, the size penalty is factor·R² or 0, and the base loss splits into the two penalty means |
| EvaluationMetrics.CompareTrainTestLoss | hansentest/evaluation_metrics.py:68-100 | the comparison exists exactly when both the train and the test data are non-empty |
| EvaluationMetrics.ComparisonMeaning | hansentest/evaluation_metrics.py:90-97 | the difference is test − train; the ratio is infinite iff the train loss is not positive and otherwise gives the test loss back; overfitting (a positive difference) is a ratio above 1 |
| EvaluationMetrics.ComparisonIgnoresSizeFactor | hansentest/evaluation_metrics.py:87-91 | both compared losses are base losses, so the size factor changes neither them nor their ratio |
| EvaluationMetrics.RatioMeaning | hansentest/evaluation_metrics.py:97 | the loss ratio is infinite iff the train loss is not positive, otherwise times the train loss gives the test loss, and exceeds 1 iff test exceeds train |
| EvaluationMetrics.CountWhere | hansentest/evaluation_metrics.py:125-126 | the number of samples with a given score is at most the number of samples |
| EvaluationMetrics.AnalyzeLossComponents | hansentest/evaluation_metrics.py:103-142 | the analysis exists for non-empty data; its overall figures are those of evaluate_with_loss, and the category loop yields the per-category entries, each with its count, mean and total loss, mean RED, RED standard deviation and contribution |
| EvaluationMetrics.ValuesWhere | hansentest/evaluation_metrics.py:125-137 | the masked array `values[mask]` has one value per sample of the category |
| EvaluationMetrics.ValuesWhereSum | hansentest/evaluation_metrics.py:134-136 | the sum of the masked array is the masked sum |
| EvaluationMetrics.VarianceMeaning | hansentest/evaluation_metrics.py:137 | the population variance `np.std` takes the root of is never negative, and is zero exactly when every value equals the mean |
| EvaluationMetrics.StatsMeaning | hansentest/evaluation_metrics.py:130-140 | a category entry's count, mean loss, total loss and mean RED are those of the masked arrays, and its RED standard deviation is the root of their non-negative population variance |
| EvaluationMetrics.ByCategoryOmitsEmpty | hansentest/evaluation_metrics.py:124-129 | a category is reported exactly when it has samples |
| EvaluationMetrics.SumWhereEmpty | hansentest/evaluation_metrics.py:128-129 | a category without samples contributes nothing |
| EvaluationMetrics.CategoriesPartition | hansentest/evaluation_metrics.py:124-126 | for scores in {1.0, 0.5, 0.0} the three categories split the samples and the loss |
| EvaluationMetrics.ContributionsSumTo100 | hansentest/evaluation_metrics.py:139 | for such scores and a positive total the three contribution percentages add up to 100, an empty category giving 0 |
| EvaluationMetrics.ContributionEmpty | hansentest/evaluation_metrics.py:139 | a category without samples has a contribution of 0 |
| EvaluationMetrics.ProblemRows | hansentest/evaluation_metrics.py:160-180 | the rows are exactly the samples whose loss exceeds the threshold, each with its own loss |
| EvaluationMetrics.FindProblematicSolvents | hansentest/evaluation_metrics.py:145-185 | None exactly when no loss exceeds the threshold; otherwise a permutation of those rows sorted by descending loss |
| EvaluationMetrics.ProblematicExactly | hansentest/evaluation_metrics.py:163-183 | every reported solvent exceeds the threshold and every solvent exceeding it is reported |
| EvaluationMetrics.LossItems | hansentest/evaluation_metrics.py:208-210 | one (name, base loss) pair per candidate, in dictionary order |
| EvaluationMetrics.LossBasedModelSelection | hansentest/evaluation_metrics.py:188-222 | the loop-filled losses dictionary, the ranking and the best model are those of the selection function |
| EvaluationMetrics.LossMapContents | hansentest/evaluation_metrics.py:208-210 | with distinct names the dictionary maps every name to its loss, and holds no other key |
| EvaluationMetrics.RankingMeaning | hansentest/evaluation_metrics.py:213-215 | the ranking holds every (name, loss) pair in ascending order of loss, and its head has the least loss |
| EvaluationMetrics.LossMapKeys | hansentest/evaluation_metrics.py:208-210 | the dictionary's keys are exactly the candidates' names |
| EvaluationMetrics.SelectionMeaning | hansentest/evaluation_metrics.py:188-222 | selection fails exactly for no candidates; otherwise the best model heads a sorted ranking of all pairs with the least loss, and the dictionary maps each name to its loss |
| EvaluationMetrics.SeqMin | hansentest/evaluation_metrics.py:243 | the minimum is one of the values and no value is below it |
| EvaluationMetrics.SeqMax | hansentest/evaluation_metrics.py:244 | the maximum is one of the values and no value exceeds it |
| EvaluationMetrics.ComputeLossStatistics | hansentest/evaluation_metrics.py:225-249 | the statistics fail exactly for an empty list |
| EvaluationMetrics.LossStatisticsMeaning | hansentest/evaluation_metrics.py:239-249 | min ≤ mean ≤ max, min and max are attained values, n counts the values, and cv is infinite exactly when the mean is not positive |
| ConcentricSpheroids.DistanceMeaning | hansentest/concentric_spheroids.py:35-49 | Ra = sqrt(4·ΔD² + ΔP² + ΔH²) is non-negative, symmetric, and zero exactly on equal points |
| ConcentricSpheroids.Pairs | hansentest/concentric_spheroids.py:71 | zipping radii and levels pairs no more entries than either list holds |
| ConcentricSpheroids.ObjectiveFunction | hansentest/concentric_spheroids.py:51-82 | the nested loops accumulate F = Σ_j Σ_i (R_j − Ra_ji)² over the zipped (radius, level) pairs |
| ConcentricSpheroids.LevelSumZeroIff | hansentest/concentric_spheroids.py:72-80 | a level's sum of squared residuals is non-negative, and zero exactly when every point lies at the level's radius |
| ConcentricSpheroids.ObjectiveUpToZeroIff | hansentest/concentric_spheroids.py:71-80 | the sum over the first k levels is non-negative, and zero exactly when all their points lie at their radii |
| ConcentricSpheroids.ObjectiveZeroIff | hansentest/concentric_spheroids.py:64-82 | F ≥ 0, and F = 0 exactly when every point of every paired level lies at its level's radius |
| ConcentricSpheroids.ObjectiveUpToPrefix | hansentest/concentric_spheroids.py:71 | the sum over the first k pairs depends only on the first k radii and levels |
| ConcentricSpheroids.SurplusIgnored | hansentest/concentric_spheroids.py:71 | radii beyond the number of levels, and levels beyond the number of radii, do not change F |
| ConcentricSpheroids.CalculateMse | hansentest/concentric_spheroids.py:84-97 | the MSE is infinite exactly when the total number of points minus m is not positive |
| ConcentricSpheroids.MseMeaning | hansentest/concentric_spheroids.py:97 | a finite MSE times the degrees of freedom gives F back, and is non-negative when F is |
| ConcentricSpheroids.DefaultBoundsShape | hansentest/concentric_spheroids.py:127-132 | the default bounds have 3 + m entries: (10, 25), (0, 20), (0, 30) for the centre and (0, 20) for every radius |
| ConcentricSpheroids.ConcentricSpheroidsHsp.constructor | hansentest/concentric_spheroids.py:32-33 | a new fitter has no result |
| ConcentricSpheroids.ConcentricSpheroidsHsp.Fit | hansentest/concentric_spheroids.py:99-166 | the stored and returned result carries the optimiser's centre and radii, F, the MSE for m = number of levels, m and the number of points |
| ConcentricSpheroids.FitMseInfinite | hansentest/concentric_spheroids.py:151 | after a fit the MSE is infinite exactly when there are no more points than levels |
| ConcentricSpheroids.LevelPoints | hansentest/concentric_spheroids.py:280 | a level selects at most as many points as there are rows |
| ConcentricSpheroids.UsedLevels | hansentest/concentric_spheroids.py:279-282 | at most as many groups as levels |
| ConcentricSpheroids.PrepareData | hansentest/concentric_spheroids.py:277-284 | the loop appends one group per level that selects at least one row |
| ConcentricSpheroids.GroupedMeaning | hansentest/concentric_spheroids.py:279-282 | the groups are the non-empty levels in the order given; each group holds exactly its level's points and none is empty |
| ConcentricSpheroids.LevelPointsMeaning | hansentest/concentric_spheroids.py:280 | a level group holds exactly the coordinates of the rows with that score |
| HspModels.MakeHspValues | app/models/hsp_models.py:16-24 | building HSP values succeeds exactly when δD, δP, δH and a given radius are non-negative; a missing radius becomes 4.0 |
| HspModels.DefaultRadiusRule | app/models/hsp_models.py:21-24 | the default radius is 4.0 and a given non-negative radius is kept |
| HspModels.CalculateRed | app/models/hsp_models.py:31-41 | RED is infinite exactly when the radius is not positive |
| HspModels.CompatibilityMeaning | app/models/hsp_models.py:31-45 | RED is non-negative; with a positive radius two points are compatible exactly when their squared Hansen distance is below R², a point on the sphere (RED = 1) is not compatible, and with a non-positive radius nothing is |
| HspModels.ValidateCalculationResult | app/models/hsp_models.py:82-96 | a calculation result is accepted exactly when every field is within its declared bounds, and is then unchanged |
| HspModels.ToHspValues | app/models/hsp_models.py:106-113 | a valid calculation result always converts to HSP values, keeping its three parameters and its radius |
| HspModels.ValidateExperiment | app/models/hsp_models.py:155-167 | an experiment is rejected exactly when it has no tests or a blank sample name; otherwise it is kept with the sample name stripped and non-empty |
| HspModels.CountType | app/models/hsp_models.py:169-174 | no solubility type is counted more often than there are tests |
| HspModels.GetSolventCountByType | app/models/hsp_models.py:169-174 | the counter loop succeeds exactly when every solubility is an enum value; its keys are then the three types and each value is the number of tests of that type |
| HspModels.CountsSumToTotal | app/models/hsp_models.py:169-174 | for enum-valued tests the three counts add up to the number of tests |
| HspModels.TestsOfType | app/models/hsp_models.py:176-186 | the selected tests are exactly the experiment's tests of that type, as many as the count of that type |
| HspModels.FiltersPartition | app/models/hsp_models.py:176-186 | good, bad and partial solvents are the tests of their type, no test is in two lists, and for enum-valued tests the three lists hold all tests |
| SolventModels.ValidateSolubility | app/models/solvent_models.py:96-102 | a numeric solubility is rejected exactly when outside [0.0, 1.0]; an enum value always passes; an accepted value is unchanged |
| SolventModels.ValidateOptionalName | app/models/solvent_models.py:64-69 | an optional solvent name is rejected exactly when given and blank; None stays None and any other name is stored stripped and non-empty |
| SolventModels.TotalParameterMeaning | app/models/solvent_models.py:54-62 | the total solubility parameter is non-negative and its square is δD² + δP² + δH² |
| SolventModels.ValidateSolventData | app/models/solvent_models.py:17-62 | a solvent record is rejected exactly when a field breaks its bound or the name is blank; otherwise only the name is normalised and a missing total is filled from the components, a given total being kept |
| SolventModels.ValidatedSolventData | app/models/solvent_models.py:17-69 | a validated solvent record satisfies every field bound, its name (if any) is stripped and non-empty, and its total is the Euclidean norm of δD, δP, δH unless one was supplied |
| SolventModels.FirstUndeclared | app/models/solvent_models.py:17-52 | the position found is the first attribute name outside the declared fields, every earlier one declared; none found means every name is declared |
| SolventModels.ValidateTestName | app/models/solvent_models.py:114-119 | a test's solvent name is rejected exactly when blank, else stored stripped and non-empty |
| SolventModels.ValidateSolventTest | app/models/solvent_models.py:90-119 | a test is rejected exactly when its name is blank, its numeric solubility is outside [0, 1] or a manual value is negative; otherwise only the name is stripped |
| SolventModels.ValidatedTest | app/models/solvent_models.py:90-119 | every validated test satisfies all of the test's field constraints |
| SolventModels.GetHspValues | app/models/solvent_models.py:121-128 | the HSP triple is unavailable exactly when some manual value is missing and no solvent record is attached |
| SolventModels.GetHspValuesPrecedence | app/models/solvent_models.py:121-128 | a complete manual triple wins over the attached record; an incomplete one is ignored entirely in favour of the record |
| SolventModels.DefaultQuery | app/models/solvent_models.py:140-153 | a query of defaults is within bounds, with limit 50 and offset 0 |
| SolventModels.ValidateSearchQuery | app/models/solvent_models.py:140-153 | a search query is accepted exactly when within bounds (limit 1..1000, offset and ranges non-negative), and is then unchanged |
| AccuracyEvaluation.CorrectCount | hansentest/test_theory_based_loss.py:62-80 | no more samples are counted correct than were examined |
| AccuracyEvaluation.CountCorrect | hansentest/test_theory_based_loss.py:62-80 | the loop's four counters are the numbers of samples whose predicted good (RED < 1) agrees with actual good (score ≥ 0.5), overall and within the good, partial and poor categories |
| AccuracyEvaluation.BucketsSumToCorrect | hansentest/test_theory_based_loss.py:73-80 | every correct sample is counted in exactly one of the three category counters |
| AccuracyEvaluation.ScoreCount | hansentest/test_theory_based_loss.py:83-85 | the number of samples with a given score is at most the number of samples |
| AccuracyEvaluation.BucketBounded | hansentest/test_theory_based_loss.py:73-85 | with scores in {1.0, 0.5, 0.0}, a category's correct count never exceeds the number of samples of that score |
| AccuracyEvaluation.AccuracyBounds | hansentest/test_theory_based_loss.py:82-85 | overall accuracy lies in [0, 100]; an empty category scores 0; with scores in {1.0, 0.5, 0.0} every category accuracy lies in [0, 100] |
| AccuracyEvaluation.PoorAccuracyOtherScores | hansentest/test_theory_based_loss.py:79-85 | the poor counter also takes scores other than 1.0 and 0.5 while dividing by the number of 0.0 scores: scores [0.0, 0.3] outside the sphere give a poor accuracy of 200 |
| AccuracyEvaluation.RankByAccuracy | hansentest/test_theory_based_loss.py:110 | the ranking is a permutation of the results in non-increasing order of accuracy |
| AccuracyEvaluation.BestIsMostAccurate | hansentest/test_theory_based_loss.py:130 | the head of the ranking is one of the results, no result is more accurate, and it is the first result of greatest accuracy, as the stable sort with reverse=True leaves it |
| AccuracyEvaluation.BestBalanced | hansentest/test_theory_based_loss.py:136 | the chosen result has the greatest min(good, poor) accuracy, and every earlier result has a strictly smaller one (the first maximum) |
| SizeFactorSelection.LossSizeFactor | hansentest/optimize_size_factor.py:40 | the loss gets a size factor exactly when it is positive, and then that value |
| SizeFactorSelection.ZeroSizeFactorNoPenalty | hansentest/optimize_size_factor.py:40 | a non-positive size factor trains on the plain mean of the continuous terms, with no size penalty |
| SizeFactorSelection.FoldPartition | hansentest/optimize_size_factor.py:30-31 | a fold's train indices are 0..n−1 without i in increasing order, its test index is i, and together they cover 0..n−1 exactly once |
| SizeFactorSelection.Select | hansentest/optimize_size_factor.py:33-34 | indexing by an index array gives one value per index |
| SizeFactorSelection.LeaveOneOutCv | hansentest/optimize_size_factor.py:17-70 | no solvents give no folds and NaN means (None); otherwise one train and one test loss per solvent, fold i's being the losses of the fold-i fit on the train part and on solvent i, and the reported means are the means of those lists |
| SizeFactorSelection.FoldTestLossMeaning | hansentest/optimize_size_factor.py:51-53 | a fold's test loss is the continuous term of the held-out solvent alone, and is non-negative for a score in [0, 1] |
| SizeFactorSelection.ParseCriterion | hansentest/optimize_size_factor.py:125-131 | exactly the names test_loss, overfitting and balanced are criteria |
| SizeFactorSelection.FirstMin | hansentest/optimize_size_factor.py:133 | the chosen index has the least score and every earlier index a strictly larger one |
| SizeFactorSelection.ScoresOf | hansentest/optimize_size_factor.py:120-131 | one score per result, each the criterion's score of that result |
| SizeFactorSelection.SelectBestSizeFactor | hansentest/optimize_size_factor.py:109-135 | the scoring loop followed by `min` gives the specified selection |
| SizeFactorSelection.SelectionMeaning | hansentest/optimize_size_factor.py:109-135 | selection fails exactly for no results or an unknown criterion; otherwise the size factor chosen is a candidate of least score, no earlier candidate tying with it |
| SizeFactorSelection.CriterionScores | hansentest/optimize_size_factor.py:120-131 | the three criteria are the mean test loss, the non-negative gap between test and train loss, and 0.7 · test loss + 0.3 · gap |
| SizeFactorSelection.FinalCorrectCount | hansentest/optimize_size_factor.py:179-192 | no more solvents are counted correct than were examined |
| SizeFactorSelection.FinalAccuracy | hansentest/optimize_size_factor.py:175-194 | the accuracy loop gives the percentage of solvents classified correctly under the three-way rule, and none for an empty data set |
| SizeFactorSelection.FinalAccuracyMeaning | hansentest/optimize_size_factor.py:179-194 | the final accuracy lies in [0, 100]; a solvent with RED exactly 1 counts only when partial; a score other than 1.0, 0.5, 0.0 never counts |
| HspCalculator.ExtractHspValuesAsWritten | app/services/hsp_calculator.py:119-153 | as the code runs it: a set manual δD selects the manual triple as it stands; otherwise the triple is empty exactly when the name is empty or unknown to the database, and else it is the database entry, complete; an attached record is never read |
| HspCalculator.ExtractHspValues | app/services/hsp_calculator.py:119-153 | the intended extraction (see Findings): as above, except that an attached record, when there is no manual δD, gives its three values; without a record it agrees with the code as written |
| HspCalculator.AttachedRecordIgnored | app/services/hsp_calculator.py:134-141 | a test whose only source of values is an attached record gets no values from the code as written, so the conversion drops it, and it gets the record's values from the corrected extraction |
| HspCalculator.ExtractPrecedence | app/services/hsp_calculator.py:130-141 | as written: a manual δD wins even with δP missing, leaving the triple incomplete; without a manual δD the triple is complete or empty; an attached record never changes the outcome |
| HspCalculator.ConvertSolubilityToBinary | app/services/hsp_calculator.py:155-166 | a test scores 1 exactly when soluble or partial, and 0 otherwise |
| HspCalculator.NumericScoresArePoor | app/services/hsp_calculator.py:165-166 | a numeric solubility, even 1.0, is never in the good list and scores 0 |
| HspCalculator.ConvertedRows | app/services/hsp_calculator.py:99-117 | the rows of the tests whose as-written extraction is complete; no more rows than tests |
| HspCalculator.ConvertTestsToHspFormat | app/services/hsp_calculator.py:87-117 | the conversion loop builds the specified rows, skipping tests for which `_extract_hsp_values` as written gives no three values (so a test with only an attached record is skipped) |
| HspCalculator.CompleteCount | app/services/hsp_calculator.py:200-203 | the number of tests whose as-written extraction is complete; no more than the tests |
| HspCalculator.ConvertedRowsMeaning | app/services/hsp_calculator.py:99-117 | one row per test whose as-written extraction is complete, each carrying that test's name, values and a 0/1 score |
| HspCalculator.GoodCount | app/services/hsp_calculator.py:205-209 | no more good solvents than tests |
| HspCalculator.ValidateTestData | app/services/hsp_calculator.py:168-227 | the counting loop, over the as-written extraction, and the checks after it give the specified validation, whose count error reports the count as " (found n)" |
| HspCalculator.Judge | app/services/hsp_calculator.py:215-227 | the checks after the loop give the specified verdict from the three counts; the count error carries the number of tests with complete values |
| HspCalculator.Classify | app/services/hsp_calculator.py:200-209 | the loop body tells whether the as-written extraction gives the test three values and whether it is good |
| HspCalculator.CountStep | app/services/hsp_calculator.py:199-209 | one more test adds one to the complete count exactly when its as-written values are complete, and one to the good count exactly when it is good |
| HspCalculator.ValidationMeaning | app/services/hsp_calculator.py:168-227 | fewer than two tests: invalid, one error, nothing counted; otherwise the tests with values are those whose as-written extraction is complete, the good ones are counted by category, good + poor is the number of tests, valid exactly when at least two have values and one is good, invalid exactly when there is an error, and no poor solvent only warns |
| HspCalculator.ValidationErrors | app/services/hsp_calculator.py:215-223 | with two tests or more, the count error (with its count) is raised exactly when fewer than two tests have complete values, the good-solvent error exactly when none is good, and there are no other errors |
| HspCalculator.HspDataErrorCount | app/services/hsp_calculator.py:218 | the count error is the fixed text, then the count in decimal digits that read back as the count, then ")" |
| Text.NatToString | app/services/hsp_calculator.py:218 | `f"{n}"` of a count: at least one decimal digit, and no leading zero |
| Text.NatToStringValue | app/services/hsp_calculator.py:218 | the digits written for a count read back as that count |
| Text.NatToStringInjective | app/services/hsp_calculator.py:218 | different counts are written differently |
| HspCalculator.CalculateHspFromTests | app/services/hsp_calculator.py:20-85 | no result with fewer than two rows converted as written; a result lies within the result's field bounds, counts all tests, counts the soluble ones as good and names HSPiPy |
| SolventNames.RemoveMarks | scripts/consolidate_solvent_csv.py:106-107 | the result holds no ™, ® or ©, keeps only characters of the input, is no longer, and leaves a mark-free name alone |
| SolventNames.Collapse | scripts/consolidate_solvent_csv.py:109-110 | runs of whitespace become single spaces; empty exactly when the input is, starting with whitespace exactly when the input does |
| SolventNames.CollapseKeepsNoMarks | scripts/consolidate_solvent_csv.py:106-110 | collapsing whitespace never brings a trade mark back |
| SolventNames.CollapseOfCollapsed | scripts/consolidate_solvent_csv.py:109-110 | a collapsed string is its own collapse |
| SolventNames.SliceKeepsShape | scripts/consolidate_solvent_csv.py:109-113 | a slice of a collapsed mark-free string is collapsed and mark-free |
| SolventNames.CleanSolventNameShape | scripts/consolidate_solvent_csv.py:104-115 | a cleaned name has no trade marks, only single spaces, no whitespace at either end, and is no longer than the input |
| SolventNames.StripKeepsShape | scripts/consolidate_solvent_csv.py:112-113 | stripping keeps a string collapsed and mark-free and makes it stripped |
| SolventNames.CollapseLength | scripts/consolidate_solvent_csv.py:109-110 | collapsing never makes a string longer |
| SolventNames.CleanSolventNameIdempotent | scripts/consolidate_solvent_csv.py:104-115 | cleaning a cleaned name changes nothing |
| SolventNames.FirstClose | scripts/consolidate_solvent_csv.py:171 | the position found is the first ')' from the start position, or the end |
| SolventNames.MatchFrom | scripts/consolidate_solvent_csv.py:171 | a match ends within the string |
| SolventNames.MatchFromMeaning | scripts/consolidate_solvent_csv.py:171 | the lazy group `(.+?)` ends at the first position followed by a matching tail, with no newline before it; no match means every tail has a newline before it |
| SolventNames.ParenTailIff | scripts/consolidate_solvent_csv.py:171 | the tail `\s*\([^)]+\)\s*$` matches exactly when the rest is spaces, '(', a non-empty run without ')', ')' and spaces |
| SolventNames.ParenTailShape | scripts/consolidate_solvent_csv.py:171 | a matching tail has that shape at its first '(' and first ')' |
| SolventNames.ShapeParenTail | scripts/consolidate_solvent_csv.py:171 | a string of that shape matches the tail, and the shape is unique |
| SolventNames.BaseNameMeaning | scripts/consolidate_solvent_csv.py:166-177 | a changed name is the stripped non-blank text before the shortest parenthesised tail; a name with no such tail is unchanged; the base is never longer |
| SolventNames.BaseNameExample | scripts/consolidate_solvent_csv.py:166-177 | "A (b)" reduces to "A" |
| SolventNames.BaseNameMatch | scripts/consolidate_solvent_csv.py:171 | the match of "A (b)" ends after one character |
| SolventNames.BlankBaseExample | scripts/consolidate_solvent_csv.py:173-177 | " (b)" has a blank base and is kept whole |
| SolventNames.BlankBaseMatch | scripts/consolidate_solvent_csv.py:171 | the match of " (b)" ends after one character |
| SolventNames.BlankPrefix | scripts/consolidate_solvent_csv.py:174-176 | the group of " (b)" strips to nothing |
| CsvCleaning.Trunc | scripts/consolidate_solvent_csv.py:91 | `int()` truncates toward zero: within one below a non-negative value, within one above a negative one |
| CsvCleaning.Token | scripts/consolidate_solvent_csv.py:80 | the first word is the longest whitespace-free prefix |
| CsvCleaning.Words | scripts/consolidate_solvent_csv.py:80 | `split()` gives non-empty whitespace-free words |
| CsvCleaning.FirstInt | scripts/consolidate_solvent_csv.py:81-86 | a value exists exactly when some word parses, and it is the truncation of the first word that does |
| CsvCleaning.CleanNumericMeaning | scripts/consolidate_solvent_csv.py:62-102 | missing cells and the missing-value markers give None; with negatives disallowed every value is non-negative, except in the space-separated integer branch, which takes the first parsing word and skips the check |
| CsvCleaning.SpacedNegativeKept | scripts/consolidate_solvent_csv.py:78-86 | "-5 3" in a non-negative integer column comes out as -5 |
| CsvCleaning.SpacedText | scripts/consolidate_solvent_csv.py:70-78 | "-5 3" is stripped, not a marker, and contains a space |
| CsvCleaning.SpacedWords | scripts/consolidate_solvent_csv.py:80 | the first word of "-5 3" is "-5" |
| CsvCleaning.RowOf | scripts/consolidate_solvent_csv.py:309 | the row has exactly the columns that hold a cell |
| CsvCleaning.PresentCount | scripts/consolidate_solvent_csv.py:247 | no more present columns than listed columns |
| CsvCleaning.PresentCountFull | scripts/consolidate_solvent_csv.py:247 | every listed column is present exactly when all are counted |
| CsvCleaning.CompletenessMeaning | scripts/consolidate_solvent_csv.py:242-248 | completeness lies in [0, 1], is 1.0 for no columns, and is 1.0 exactly when every listed column holds a value |
| CsvCleaning.RatioUnit | scripts/consolidate_solvent_csv.py:248 | a count over a larger positive total is in [0, 1], and 1 exactly when equal |
| CsvCleaning.CompletenessBonusBounds | scripts/consolidate_solvent_csv.py:236 | the completeness bonus lies in 0..100 and is 100 for a complete row |
| CsvCleaning.FileWeight | scripts/consolidate_solvent_csv.py:223-230 | every file weight is 3000, 2000, 1000 or the default 500 |
| CsvCleaning.RuleFor | scripts/consolidate_solvent_csv.py:315-316 | a rule found is in the table and names the column; none is found exactly when no rule names it |
| CsvCleaning.CleanRow | scripts/consolidate_solvent_csv.py:314-321 | cleaning keeps exactly the row's columns |
| DuplicateRegistry.StepCases | scripts/consolidate_solvent_csv.py:345-373 | a new key is registered and appended to the order; a higher score replaces the entry and adds a duplicate; a lower or equal score only adds a duplicate |
| DuplicateRegistry.RunAppend | scripts/consolidate_solvent_csv.py:290-373 | processing two batches of rows in turn is processing their concatenation |
| DuplicateRegistry.RunConsistent | scripts/consolidate_solvent_csv.py:345-376 | after any rows the order lists each registered key exactly once |
| DuplicateRegistry.StepConsistent | scripts/consolidate_solvent_csv.py:345-373 | one row keeps the order and the registry in step |
| DuplicateRegistry.NewKeyConsistent | scripts/consolidate_solvent_csv.py:372-373 | registering a new key keeps the order free of repeats |
| DuplicateRegistry.NewKeyCard | scripts/consolidate_solvent_csv.py:373 | a new key adds one entry |
| DuplicateRegistry.SnocDistinct | scripts/consolidate_solvent_csv.py:373 | appending a missing key keeps a list free of repeats |
| DuplicateRegistry.SnocMembers | scripts/consolidate_solvent_csv.py:373 | appending adds exactly that key |
| DuplicateRegistry.CountKey | scripts/consolidate_solvent_csv.py:345-373 | no more rows of a key than rows |
| DuplicateRegistry.CountKeyZero | scripts/consolidate_solvent_csv.py:345-373 | no rows of a key exactly when none carries it |
| DuplicateRegistry.RunKeys | scripts/consolidate_solvent_csv.py:345-376 | a key is registered exactly when some row carries it |
| DuplicateRegistry.StepDups | scripts/consolidate_solvent_csv.py:355-369 | a row adds one duplicate to its own key only, and only when the key is already registered |
| DuplicateRegistry.WinnerStays | scripts/consolidate_solvent_csv.py:346-353 | a row of another key, or of no higher score, leaves the winner of a key in place |
| DuplicateRegistry.WinnerNew | scripts/consolidate_solvent_csv.py:346-353 | a row that beats every earlier row of its key becomes its winner |
| DuplicateRegistry.RunWinner | scripts/consolidate_solvent_csv.py:345-376 | the entry registered under a key is the first row of greatest score among the rows of that key |
| DuplicateRegistry.RunDuplicates | scripts/consolidate_solvent_csv.py:355-369 | a key's duplicate count grows by one for every row of that key after its first, and a key gains a count only once it has a duplicate |
| DuplicateRegistry.Values | scripts/consolidate_solvent_csv.py:376 | the registered entries are listed in registration order, one per key of the order |
| DuplicateRegistry.SortedMeaning | scripts/consolidate_solvent_csv.py:376-386 | the output has one entry per registered key, each registered under its key, in non-increasing score order |
| DuplicateRegistry.SortedFromRegistry | scripts/consolidate_solvent_csv.py:376-382 | every sorted entry is the one registered under its key |
| DuplicateRegistry.SortedCovers | scripts/consolidate_solvent_csv.py:376-382 | every registered entry is in the sorted output |
| DuplicateRegistry.SortedScores | scripts/consolidate_solvent_csv.py:382 | sorting by negated score gives non-increasing scores |
| ConsolidateSolvent.NormalizeColumns | scripts/consolidate_solvent_csv.py:178-216 | one column per column, each renamed through the column map and any other left as it is |
| ConsolidateSolvent.MappingTargetsFixed | scripts/consolidate_solvent_csv.py:183-203 | no standard name is itself a key of the column map |
| ConsolidateSolvent.NormalizeMeaning | scripts/consolidate_solvent_csv.py:183-206 | normalising twice is normalising once, and afterwards no column is called "Tv" |
| ConsolidateSolvent.BoilingPointUncleaned | scripts/consolidate_solvent_csv.py:257-268 | as written, the numeric table names "Tv", which normalisation has renamed to "Tb", so a boiling-point cell is never cleaned |
| ConsolidateSolvent.BoilingPointExample | scripts/consolidate_solvent_csv.py:257-268 | a "Tv" column holding "-" keeps the marker as written and is a missing value with the table naming "Tb" |
| ConsolidateSolvent.DashIsMissing | scripts/consolidate_solvent_csv.py:73-75 | the marker "-" cleans to a missing value |
| ConsolidateSolvent.CleanRowAt | scripts/consolidate_solvent_csv.py:314-321 | a column with a rule is cleaned by that rule |
| ConsolidateSolvent.BoilingPointColumns | scripts/consolidate_solvent_csv.py:197 | the header "Tv" becomes "Tb" |
| ConsolidateSolvent.BoilingPointRow | scripts/consolidate_solvent_csv.py:309 | the row of that header holds the "-" under "Tb" |
| ConsolidateSolvent.BoilingPointRule | scripts/consolidate_solvent_csv.py:267 | with the table naming "Tb" the boiling point is a float that may be negative |
| ConsolidateSolvent.FormulaElements | scripts/consolidate_solvent_csv.py:158 | each element found is an upper-case letter, optionally followed by one lower-case letter |
| ConsolidateSolvent.ChoMeaning | scripts/consolidate_solvent_csv.py:117-165 | an explicit true or false token in the CHO cell decides; without one, a SMILES result decides; without either, the formula decides, true exactly when it names no element but C, H and O; with none of the three the answer is unknown |
| ConsolidateSolvent.FormulaExample | scripts/consolidate_solvent_csv.py:154-160 | "CCl4" names chlorine and is not CHO-only |
| ConsolidateSolvent.PriorityMeaning | scripts/consolidate_solvent_csv.py:218-240 | the score of a row with completeness in [0, 1] lies between the file weight + 1 and weight + rows + 100; within a file an earlier row scores higher, and more completeness never scores lower |
| ConsolidateSolvent.RowEntryMeaning | scripts/consolidate_solvent_csv.py:289-345 | a row is skipped exactly when its cleaned name is empty or "nan"; a kept row is filed under the lower-cased base name of its cleaned name, carries that name, line index + 2 and its priority score |
| ConsolidateSolvent.RowEntry | scripts/consolidate_solvent_csv.py:289-345 | a row is skipped exactly when its cleaned name is empty or "nan"; a kept row carries its file name and line index + 2; its fields are cleaned by the numeric table as written |
| ConsolidateSolvent.RecordFields | scripts/consolidate_solvent_csv.py:309-321 | a kept row's fields are its columns plus "Solvent", which holds the cleaned name |
| ConsolidateSolvent.RowEntryBoilingPointRaw | scripts/consolidate_solvent_csv.py:257-268 | as written, a kept row's "Tb" cell is copied uncleaned |
| ConsolidateSolvent.FieldsBoilingPointRaw | scripts/consolidate_solvent_csv.py:309-321 | the cleaned fields hold the "Tb" cell as read |
| ConsolidateSolvent.TbUnruled | scripts/consolidate_solvent_csv.py:257-268 | the numeric table as written has no rule for "Tb" |
| ConsolidateSolvent.CleanRowUnruled | scripts/consolidate_solvent_csv.py:314-321 | a column without a rule is kept as read |
| ConsolidateSolvent.FileEntriesStep | scripts/consolidate_solvent_csv.py:289-373 | one more row either adds nothing or is offered to the registry |
| ConsolidateSolvent.SolventConsolidator.constructor | scripts/consolidate_solvent_csv.py:27 | a new consolidator has no duplicate counts |
| ConsolidateSolvent.SolventConsolidator.Offer | scripts/consolidate_solvent_csv.py:345-373 | the duplicate-handling block is one step of the registry: new key registered, strictly higher score replaces, every duplicate counted |
| ConsolidateSolvent.SolventConsolidator.ConsolidateFiles | scripts/consolidate_solvent_csv.py:250-392 | the file and row loops leave the registry consistent, keep the object's duplicate counts equal to the registry run over all rows, and return the registered rows sorted by descending score |
| ConsolidateLegacy.NormalizeColumns | scripts/consolidate_csv.py:102-132 | one column per column, each renamed through the shorter column map and any other left as it is |
| ConsolidateLegacy.NormalizeMeaning | scripts/consolidate_csv.py:107-124 | normalising twice is normalising once; the long boiling-point header becomes "Tv", which the numeric table names |
| ConsolidateLegacy.NormalizeTwice | scripts/consolidate_csv.py:124 | normalising twice is normalising once |
| ConsolidateLegacy.LongTvHeader | scripts/consolidate_csv.py:117 | the long boiling-point header becomes "Tv" |
| ConsolidateLegacy.MappingTargetsFixed | scripts/consolidate_csv.py:107-122 | no renamed column is renamed again |
| ConsolidateLegacy.TargetFixed | scripts/consolidate_csv.py:107-122 | a target of the column map is not one of its keys |
| ConsolidateLegacy.TvRule | scripts/consolidate_csv.py:186 | the table cleans "Tv" as a float that may be negative |
| ConsolidateLegacy.BoilingPointCleaned | scripts/consolidate_csv.py:178-229 | here a normalised "Tv" column is cleaned as a float that may be negative |
| ConsolidateLegacy.PriorityMeaning | scripts/consolidate_csv.py:134-159 | with the file-size bonus the score lies between weight + 10·rows + 1 and weight + 11·rows + 100; an earlier row scores higher, and more completeness never scores lower |
| ConsolidateLegacy.RowEntryMeaning | scripts/consolidate_csv.py:206-240 | a row is skipped exactly when its stripped name is empty or "nan"; a kept row is filed under that exact name, keeps its "Solvent" cell as read, and carries line index + 2 and its score |
| ConsolidateLegacy.RowEntry | scripts/consolidate_csv.py:206-240 | the row-loop body: a row is skipped exactly when its stripped name is empty or "nan"; a kept row is filed under that name, with its file name and line index + 2 |
| ConsolidateLegacy.NoSolventNoName | scripts/consolidate_csv.py:207-211 | a row without a "Solvent" cell reads as "nan" and is skipped |
| ConsolidateLegacy.SolventKept | scripts/consolidate_csv.py:223-229 | the numeric table does not touch the "Solvent" cell |
| ConsolidateLegacy.FileEntriesStep | scripts/consolidate_csv.py:206-269 | one more row either adds nothing or is offered to the registry |
| ConsolidateLegacy.CsvConsolidator.constructor | scripts/consolidate_csv.py:22-26 | a new consolidator has no duplicate counts |
| ConsolidateLegacy.CsvConsolidator.Offer | scripts/consolidate_csv.py:243-269 | the duplicate-handling block is one step of the registry |
| ConsolidateLegacy.CsvConsolidator.ConsolidateFiles | scripts/consolidate_csv.py:169-288 | the loops leave the registry consistent, keep the object's duplicate counts equal to the registry run over all rows, and return the registered rows sorted by descending score |
| CommonNamesSources.SolventColumn | scripts/add_common_names_from_other_sources.py:37-41 | the column chosen is the first whose lower-cased name is "solvent" or "solvents"; none means there is no such column |
| CommonNamesSources.LoadAllSolvents | scripts/add_common_names_from_other_sources.py:20-68 | the file loop fills the specified mapping |
| CommonNamesSources.ReadColumn | scripts/add_common_names_from_other_sources.py:48-62 | the row loop adds the column's usable names to the mapping in order |
| CommonNamesSources.ColumnNamesSkip | scripts/add_common_names_from_other_sources.py:48-52 | a missing cell or an empty or "nan" name adds no name |
| CommonNamesSources.ColumnNamesKeep | scripts/add_common_names_from_other_sources.py:48-52 | any other cell adds its stripped name |
| CommonNamesSources.AddAllAppend | scripts/add_common_names_from_other_sources.py:48-62 | adding two lists of names in turn is adding their concatenation |
| CommonNamesSources.Offer | scripts/add_common_names_from_other_sources.py:54-61 | the loop body after the name checks is one step of the mapping |
| CommonNamesSources.AddAllSnoc | scripts/add_common_names_from_other_sources.py:48-62 | adding one more name is one more step |
| CommonNamesSources.AddAllMeaning | scripts/add_common_names_from_other_sources.py:54-61 | the keys are exactly the keys of the names, each mapped to the first name with that key |
| CommonNamesSources.SolventMappingMeaning | scripts/add_common_names_from_other_sources.py:20-68 | a key is in the mapping exactly when some name read carries a common name for it; it maps to the first such name over all source files in order; every value is a name read from a file that is not skipped |
| CommonNamesSources.FirstNamesWellFormed | scripts/add_common_names_from_other_sources.py:54-61 | first names of stripped names give a well-formed mapping |
| CommonNamesSources.AllStrippedConcat | scripts/add_common_names_from_other_sources.py:49 | two lists of stripped names concatenate to one |
| CommonNamesSources.StreamStripped | scripts/add_common_names_from_other_sources.py:49 | every name read is stripped |
| CommonNamesSources.ColumnNamesStripped | scripts/add_common_names_from_other_sources.py:49 | every name read from a column is stripped |
| CommonNamesSources.CellNameStripped | scripts/add_common_names_from_other_sources.py:49 | a cell's name is stripped |
| CommonNamesSources.StrippedName | scripts/add_common_names_from_other_sources.py:49 | a stripped string is stripped |
| CommonNamesSources.ReadFiles | scripts/add_common_names_from_other_sources.py:28-31 | no skipped file is read |
| CommonNamesSources.SkippedFilesIgnored | scripts/add_common_names_from_other_sources.py:28-31 | the URL list and the JoshuaSchrier table contribute nothing: the mapping is the one of the other files alone |
| CommonNamesSources.UpdateJoshuaSchrier | scripts/add_common_names_from_other_sources.py:70-98 | the "Solvent" column is rewritten in place cell by cell, and the count returned is the number of replaced cells |
| CommonNamesSources.UpdateRow | scripts/add_common_names_from_other_sources.py:79-95 | the loop body rewrites one cell as specified and reports whether it replaced it |
| CommonNamesSources.ReplacedCountChanged | scripts/add_common_names_from_other_sources.py:92-95 | with a well-formed mapping the count is the number of cells the update changes |
| CommonNamesSources.UpdateMeaning | scripts/add_common_names_from_other_sources.py:78-95 | rows with a common name already, and empty or "nan" rows, are unchanged; any other row changes exactly when its lower-cased name is a key, taking a name whose base matches it case-insensitively; a row is counted exactly when it changes |
| CommonNamesSources.UpdateFromSources | scripts/add_common_names_from_other_sources.py:104-119 | with the collected mapping, every rewritten row takes a name read from a source file whose base matches it case-insensitively |
| CommonNamesSolvent.FirstGroup | scripts/add_common_names_to_solvent.py:20 | a group found is a "(…)" match at or after the position |
| CommonNamesSolvent.FirstGroupMeaning | scripts/add_common_names_to_solvent.py:20 | the group found is the leftmost; none found means no position matches |
| CommonNamesSolvent.AlphaCount | scripts/add_common_names_to_solvent.py:31 | no more alphabetic characters than characters |
| CommonNamesSolvent.DigitCount | scripts/add_common_names_to_solvent.py:32 | no more digits than characters |
| CommonNamesSolvent.ExtractMeaning | scripts/add_common_names_to_solvent.py:11-38 | a name is returned exactly when the leftmost "(…)" group's stripped content looks like a name (more letters than digits, some letter), and it is that content; later groups are never inspected; a name is never empty |
| CommonNamesSolvent.LeftmostUnique | scripts/add_common_names_to_solvent.py:20 | one position at most is the leftmost match |
| CommonNamesSolvent.NoParenNoName | scripts/add_common_names_to_solvent.py:16-22 | NaN and a name without '(' give no common name |
| CommonNamesSolvent.UpdateSolventColumn | scripts/add_common_names_to_solvent.py:40-68 | the rows are rewritten in place one by one, and the count is the number of rewritten rows |
| CommonNamesSolvent.UpdateOne | scripts/add_common_names_to_solvent.py:51-64 | the loop body rewrites one row as specified and reports whether it did |
| CommonNamesSolvent.UpdateMeaning | scripts/add_common_names_to_solvent.py:55-66 | a rewritten row's solvent contains '(', a solvent already containing '(' is left alone, only the solvent changes, and a row counts exactly when it changes |
| CommonNamesSolvent.UpdateTwice | scripts/add_common_names_to_solvent.py:40-68 | a second run changes no row and counts none |
| SolventService.Names | app/services/solvent_service.py:263 | the "Solvent" column lists one name per row, in row order |
| SolventService.RowOfKept | app/services/solvent_service.py:72-106 | a surviving row, cleaned, has non-negative parameters, a non-empty stripped name and no empty or "nan" string cells |
| SolventService.KeptRowsMeaning | app/services/solvent_service.py:74-88 | every row before deduplication is a surviving row of the file, cleaned; every surviving row's stripped name is among them |
| SolventService.CleanDataMeaning | app/services/solvent_service.py:72-106 | after cleaning every row has non-negative parameters and a non-empty stripped name, no empty or "nan" string cells, no two rows share a name, every surviving row's name is present, and each row is the first surviving row of its name |
| SolventService.CleanDataCovers | app/services/solvent_service.py:90-91 | deduplication keeps every name of a surviving row |
| SolventService.ConvFaithful | app/services/solvent_service.py:131-156 | a converted row keeps its name, its three parameters, its CAS number and its source file |
| SolventService.Conversions | app/services/solvent_service.py:118-129 | one conversion per row, in order |
| SolventService.IndexOfMeaning | app/services/solvent_service.py:108-129 | a key is indexed exactly when some row that converts carries it (its lower-cased name or CAS number), and it maps to the record of the last such row |
| SolventService.RowResolves | app/services/solvent_service.py:108-174 | a clean row that converts can be looked up by its name and, when it has one without surrounding spaces, by its CAS number |
| SolventService.RowIndexed | app/services/solvent_service.py:118-127 | a key some row writes is in the index |
| SolventService.Resolves | app/services/solvent_service.py:158-165 | a stripped name whose lower-case form is a key resolves |
| SolventService.SearchMeaning | app/services/solvent_service.py:176-255 | the total counts every row passing all requested filters, before paging; the page holds at most `limit` records, each converted from such a row and so within every given bound; a first page of a result that fits and converts is the whole result |
| SolventService.PageItem | app/services/solvent_service.py:234-246 | a record converted from a row that passes all filters comes from such a row of the table and lies within every bound given |
| SolventService.PassesBounds | app/services/solvent_service.py:202-216 | a row passing all filters lies within every given δD, δP and δH bound |
| SolventService.NoneCasMatchesNone | app/services/solvent_service.py:194-200 | a text search for "none" selects every row whose CAS cell is None, since the column is searched as text |
| SolventService.NewRow | app/services/solvent_service.py:324-346 | the intended appended row (see Findings): the record's name, marked "user_added" with no source row, its CAS number in "CAS" and its boiling point in "Tb", its total parameter and completeness |
| SolventService.NewRowAsWritten | app/services/solvent_service.py:324-346 | the row the dictionary of `add_solvent` describes, which only the add corrected for "source_url" appends (as written, line 344 raises first): the intended row, except that its "CAS" cell is NaN and its "Tb" cell empty, because the values go to "Cas" and "Tv" |
| SolventService.NewRowRoundTrip | app/services/solvent_service.py:324-345 | with the columns the table uses, reading an appended row back gives the record added, apart from the source file and row the table assigns |
| SolventService.NewRowAsWrittenLoses | app/services/solvent_service.py:324-345 | were the dictionary built (that is, with "source_url" dropped), its row, filed under "Cas" and "Tv", would read back without the CAS number and the boiling point, and a rebuilt index would find it by name only |
| SolventService.NewRowKeepsCas | app/services/solvent_service.py:352-355 | with the corrected columns a rebuilt index still carries the CAS key |
| SolventService.AddTo | app/services/solvent_service.py:310-355 | the add corrected for "source_url" (see Findings): it fails exactly when the record has no name or its name already resolves; otherwise the dictionary's row is appended as the one new row |
| SolventService.AddMeaning | app/services/solvent_service.py:310-349 | for the add corrected for "source_url": it fails exactly when the record has no name or its name already resolves; otherwise exactly one row is appended after the old ones, marked "user_added", with a NaN "CAS" cell and no boiling point |
| SolventService.AddIndexMeaning | app/services/solvent_service.py:351-355 | for the add corrected for "source_url": after it the record is found by its name and by its CAS number, written straight into the index, and every other key is unchanged |
| SolventService.PutRecordKeys | app/services/solvent_service.py:351-355 | writing a named record under its keys makes it found by its name and by its CAS number |
| SolventService.SourceUrlUndeclared | app/services/solvent_service.py:344 | `SolventData` declares no "source_url": the new-row dictionary raises at its eighteenth attribute, and the update at its last assignment (line 448) |
| SolventService.NewRowRaises | app/services/solvent_service.py:324-346 | the first undeclared attribute the new-row dictionary reads is "source_url", its eighteenth |
| SolventService.UpdateRaises | app/services/solvent_service.py:432-448 | the first undeclared attribute the `.at` assignments read is "source_url", the last |
| SolventService.AddReading | app/services/solvent_service.py:310-365 | an add whose dictionary reads an undeclared attribute fails with the table unchanged; with every attribute declared it is the corrected add |
| SolventService.AddAsWrittenFails | app/services/solvent_service.py:310-365 | as written, `add_solvent` never succeeds: a nameless record and a known name are refused, and any other record raises at "source_url" and is caught, leaving the table as it was |
| SolventService.FirstNamed | app/services/solvent_service.py:411-418 | the position found is the first row named exactly so; none means no row is |
| SolventService.UpdatedRow | app/services/solvent_service.py:430-447 | the intended updated row (see Findings): the record's name, CAS number in "CAS" and boiling point in "Tb"; source file, source row, total parameter and completeness stay |
| SolventService.UpdatedRowAsWritten | app/services/solvent_service.py:430-447 | the row as `update_solvent`'s assignments leave it: the intended row, except that CAS number and boiling point keep their old values; source file stays |
| SolventService.UpdatedRowCas | app/services/solvent_service.py:431-450 | as written an update never changes the CAS number or boiling point read back; corrected, they are the record's |
| SolventService.UpdatedRowKeepsCas | app/services/solvent_service.py:436-451 | with the corrected columns, the updated row reads back with the record's CAS number and is indexed under it |
| SolventService.UpdateIn | app/services/solvent_service.py:404-450 | the update corrected for "source_url" (see Findings): it fails exactly for an unknown name, a row not added by a user, or a refused rename; otherwise the row count stays and the index is rebuilt from the new rows |
| SolventService.UpdateMeaning | app/services/solvent_service.py:404-461 | for the update corrected for "source_url": it fails exactly for an unknown name, a row not added by a user, or a rename to a name that resolves; otherwise only the first row of that name changes, to the as-written updated row (old CAS number and boiling point, record's name and fields, still "user_added"), and the index is rebuilt |
| SolventService.UpdateReading | app/services/solvent_service.py:404-461 | an update whose last assignment reads an undeclared attribute never reports success; a refused one leaves the table alone; with every attribute declared it is the corrected update |
| SolventService.UpdateReadingRaises | app/services/solvent_service.py:430-461 | when the last assignment raises, the accepted update has rewritten the first row of that name in place, kept every other row, kept the old index, and reports failure |
| SolventService.UpdateAsWrittenRefused | app/services/solvent_service.py:411-427 | as written, an unknown name, a row not added by a user or a refused rename returns False with the table unchanged |
| SolventService.UpdateAsWrittenRewrites | app/services/solvent_service.py:430-461 | as written, an accepted update rewrites the first row of that name, keeps the old index, and returns False |
| SolventService.UpdateAsWrittenMeaning | app/services/solvent_service.py:404-461 | as written, `update_solvent` never succeeds: a refused update changes nothing; an accepted one leaves the first row of that name rewritten as `UpdatedRowAsWritten` leaves it, every other row as it was, and the old index |
| SolventService.RebuiltIndexKeepsOldCas | app/services/solvent_service.py:432-486 | after a failed update has rewritten a row, deleting another user row rebuilds the index; the rewritten row remains, reads back with its old CAS number, and still answers to it |
| SolventService.DeleteFrom | app/services/solvent_service.py:463-486 | deleting fails exactly for an unknown name or a row not added by a user; otherwise the index is rebuilt from the remaining rows |
| SolventService.DeleteMeaning | app/services/solvent_service.py:463-496 | deleting fails exactly for an unknown name or a row not added by a user; otherwise every row of that exact name goes, every other row stays, and the index is rebuilt without that exact name |
| SolventService.CountMissesOne | app/services/solvent_service.py:470-474 | a row failing the mask makes the count smaller than the length |
| SolventService.UserAddedMeaning | app/services/solvent_service.py:380-402 | every record returned was read from a row marked "user_added" and carries that source file |
| SolventService.Service.constructor | app/services/solvent_service.py:25-28 | a new service holds no table and an empty index |
| SolventService.Service.LoadData | app/services/solvent_service.py:30-70 | nothing to do when loaded and not forced; a missing file fails and changes nothing; a file read is cleaned and indexed |
| SolventService.Service.CreateIndex | app/services/solvent_service.py:108-129 | the index is rebuilt from the table and the table is unchanged; without a table nothing changes |
| SolventService.Service.IndexRow | app/services/solvent_service.py:119-129 | a row that fails to convert leaves the index unchanged; one that converts writes its keys |
| SolventService.Service.EnsureDataLoaded | app/services/solvent_service.py:283-288 | succeeds exactly when a table is or can be loaded, and then holds it; on failure nothing changes |
| SolventService.Service.ReloadData | app/services/solvent_service.py:290-293 | a reload fails without a file and otherwise holds the file's cleaned and indexed table |
| SolventService.Service.GetSolventByName | app/services/solvent_service.py:158-165 | the name is looked up lower-cased and stripped in the loaded index; nothing when no table can be loaded |
| SolventService.Service.GetSolventByCas | app/services/solvent_service.py:167-174 | the CAS number is looked up the same way |
| SolventService.Service.SearchSolvents | app/services/solvent_service.py:176-255 | the response is the specified search of the loaded table, and empty when none can be loaded |
| SolventService.Service.SearchRows | app/services/solvent_service.py:189-255 | the filter, slice and conversion of one table give the specified search response |
| SolventService.NoFilterKeepsAll | app/services/solvent_service.py:189-229 | with no filter applied every row passes |
| SolventService.Service.FilterRows | app/services/solvent_service.py:189-229 | the filter chain keeps, in order, exactly the rows passing all requested filters |
| SolventService.Service.ApplyFilter | app/services/solvent_service.py:189-229 | each requested filter narrows the rows passing the earlier ones to those passing it too |
| SolventService.Service.ConvertRows | app/services/solvent_service.py:239-246 | the page's rows are converted in order, the ones that fail skipped |
| SolventService.Service.GetAllSolventNames | app/services/solvent_service.py:257-263 | the names of the loaded table, sorted; none when no table can be loaded |
| SolventService.Service.AddSolvent | app/services/solvent_service.py:310-365 | as written: the result is that of the as-written add on the loaded table, which is always False, and the table and index stay as loaded; nothing can be loaded: False, with the state unchanged |
| SolventService.Service.UpdateSolvent | app/services/solvent_service.py:404-461 | as written: the result is always False; the table and index are those the as-written update leaves on the loaded table (a refused update changes nothing, an accepted one rewrites the row in place and keeps the old index); nothing can be loaded: the state unchanged |
| SolventService.Service.DeleteSolvent | app/services/solvent_service.py:463-496 | the result and the new state are those of the specified deletion on the loaded table |
| SolventService.Service.GetUserAddedSolvents | app/services/solvent_service.py:380-402 | the records converted from the rows marked "user_added", in order |
| SolventService.UpToStep | app/services/solvent_service.py:189-229 | passing the first k + 1 filters is passing the first k and filter k |
| SolventService.PutKeysPair | app/services/solvent_service.py:122-127 | writing a record under its name and CAS keys is writing them in turn |
| PolymerService.Names | app/services/polymer_service.py:182 | the "Polymer" column lists one name per row, in row order |
| PolymerService.ColumnSelection | app/services/polymer_service.py:57-75 | a file is accepted exactly when it has the name and three parameter columns and "R0" or "Ra"; the radius is the "R0" value exactly when "Ra" is absent, and "Ra" is kept when both are present |
| PolymerService.CleanedIsClean | app/services/polymer_service.py:93-128 | a surviving row, cleaned, has non-negative parameters and radius, a non-empty stripped name and no empty string cells |
| PolymerService.KeptRowsClean | app/services/polymer_service.py:96-111 | every row before deduplication is clean |
| PolymerService.KeptRowsCover | app/services/polymer_service.py:96-111 | every surviving row's stripped name is among the rows before deduplication |
| PolymerService.CleanDataMeaning | app/services/polymer_service.py:93-128 | after cleaning every row has non-negative parameters and radius and a non-empty stripped name, no two rows share a name, every surviving row's name is present, and each row is the first surviving row of its name |
| PolymerService.CleanDataCovers | app/services/polymer_service.py:112-113 | deduplication keeps every name of a surviving row |
| PolymerService.ToPolymer | app/services/polymer_service.py:153-165 | a polymer record keeps its row's name, radius, CAS number, source file and source URL |
| PolymerService.Polymers | app/services/polymer_service.py:184-198 | one record per row, in table order |
| PolymerService.Conversions | app/services/polymer_service.py:130-151 | every row of a cleaned table converts |
| PolymerService.IndexOfMeaning | app/services/polymer_service.py:130-151 | a key is in the index exactly when some row carries it as its lower-cased name or CAS number, and it maps to the record of the last such row |
| PolymerService.RowIndexed | app/services/polymer_service.py:141-148 | a key some row writes is in the index |
| PolymerService.LookupFinds | app/services/polymer_service.py:167-174 | on a cleaned table every row is found by its name, and by its CAS number when it has one, whatever the query's case and surrounding spaces |
| PolymerService.LookupSound | app/services/polymer_service.py:167-174 | a record found was built from a row whose lower-cased name or CAS number is the query lower-cased and stripped |
| PolymerService.Service.constructor | app/services/polymer_service.py:34-38 | a new service holds no table and an empty index |
| PolymerService.Service.LoadData | app/services/polymer_service.py:40-91 | nothing to do when loaded and not forced; a missing or refused file fails and changes nothing; an accepted one is cleaned and indexed |
| PolymerService.Service.CreateIndex | app/services/polymer_service.py:130-151 | the index is rebuilt from the table, which is unchanged |
| PolymerService.Service.EnsureDataLoaded | app/services/polymer_service.py:200-205 | a loaded table is kept as it is; otherwise the file is loaded; success means a table is held |
| PolymerService.Service.ReloadData | app/services/polymer_service.py:207-210 | a reload succeeds exactly when the file is present and accepted, and then holds its cleaned and indexed table |
| PolymerService.Service.GetPolymerByName | app/services/polymer_service.py:167-174 | the lookup by the name lower-cased and stripped in the loaded index; nothing when no table can be loaded |
| PolymerService.Service.GetAllPolymerNames | app/services/polymer_service.py:176-182 | the names of the loaded table, sorted |
| PolymerService.Service.GetAllPolymers | app/services/polymer_service.py:184-198 | every row of the loaded table converted, in order |
| PolymerService.MissingColumns | app/services/polymer_service.py:66 | no column is missing exactly when every required column is present |
| PolymerService.KeysPair | app/services/polymer_service.py:141-148 | writing a record under its name and CAS keys is writing them in turn |
| DataManager.SummaryOf | app/services/data_manager.py:106-124 | a file gives a summary exactly when it can be read, with its stem as id |
| DataManager.ListMeaning | app/services/data_manager.py:90-131 | at most `limit` summaries, each read from a file at a position from `offset` to before `offset + limit`, carrying that file's stem as id |
| DataManager.ListComplete | app/services/data_manager.py:100-122 | when every file of the page can be read there is one summary per file of the page |
| DataManager.ListExperiments | app/services/data_manager.py:90-131 | the listing loop gives the specified page |
| DataManager.TagInMeaning | app/services/data_manager.py:207 | a tag is in the lower-cased list exactly when it equals some tag lower-cased |
| DataManager.AnyTagMeaning | app/services/data_manager.py:205-208 | the tag filter passes exactly when the experiment shares a tag with the request, up to case |
| DataManager.MatchesMeaning | app/services/data_manager.py:194-210 | the filters are case-insensitive substring tests on sample name and experimenter (a missing experimenter searched as ""), equality on has_results and a shared tag; no filter keeps every experiment |
| DataManager.NothingInEmpty | app/services/data_manager.py:199-200 | a non-empty string is not a substring of "" |
| DataManager.SearchMeaning | app/services/data_manager.py:182-216 | the result lists, in the listing's order, exactly the first thousand listed experiments that pass every filter |
| DataManager.SearchExperiments | app/services/data_manager.py:190-212 | the search loop gives the specified result |
| DataManager.CacheLoadMeaning | app/services/data_manager.py:59-88 | a cached experiment is returned whatever the disk holds; a load that finds something caches it, so a second load returns the same object; no other id's entry changes |
| DataManager.CacheUpdateMeaning | app/services/data_manager.py:29-180 | after a save or update the stored experiment is what a load returns; after a delete the id is gone from the cache, so a load reads the disk again; other ids keep their entries |
| DataManager.Manager.constructor | app/services/data_manager.py:24-27 | a new manager has an empty cache |
| DataManager.Manager.SaveExperiment | app/services/data_manager.py:29-57 | when the file is written the experiment is cached under the fresh id, which is returned; when opening or writing raises, the exception propagates (None) and the cache is unchanged |
| DataManager.Manager.LoadExperiment | app/services/data_manager.py:59-88 | the result and the new cache are those of the specified cached load |
| DataManager.Manager.DeleteExperiment | app/services/data_manager.py:133-150 | deleting succeeds exactly when removing the file does not fail, and then drops the id from the cache; otherwise the cache is unchanged |
| DataManager.Manager.UpdateExperiment | app/services/data_manager.py:152-180 | updating succeeds exactly when the file exists and writing it does not fail, and then caches the experiment; otherwise the cache is unchanged |
| DataManager.Manager.ExportExperiment | app/services/data_manager.py:218-229 | the loaded experiment when the format is "json" in any case, otherwise nothing |
| Visualization.NumberBands | app/services/visualization_service.py:68-75 | a number is blue from 0.7 up, orange from 0.3 to below 0.7, red below 0.3, and never gray |
| Visualization.LabelColors | app/services/visualization_service.py:60-77 | the three labels have their colours and only they do; any other string and any other value is gray |
| Visualization.PointsMeaning | app/services/visualization_service.py:80-115 | the six lists have one entry per record with all four keys, in order, each with its record's coordinates, name ("Unknown" when absent), solubility and the colour of that solubility |
| Visualization.CreateSolventPoints | app/services/visualization_service.py:80-115 | the loop builds the specified points |
| Visualization.FlattenMeaning | app/services/visualization_service.py:158-159 | a value is in the flattened grid exactly when it is in some row |
| Visualization.AllCoordinates | app/services/visualization_service.py:156-170 | the `extend` loops give the grid's rows in order followed by the points |
| Visualization.MaxOfMeaning | app/services/visualization_service.py:179-181 | the maximum is one of the values and none exceeds it |
| Visualization.AxisMaxMeaning | app/services/visualization_service.py:179-191 | the common range is at least 25 and at least two above every coordinate, and is 25 or two above some coordinate |
| Visualization.AxisRange | app/services/visualization_service.py:119-200 | every axis runs from 0 to that common maximum over the sphere mesh and the points; none when an axis has no values |
| HspExperimentalApi.PageMeaning | app/api/hsp_experimental.py:143-148 | the page number is at least 1 and is the page holding the first result, so the list response meets its field constraints |
| HspExperimentalApi.StripAll | app/api/hsp_experimental.py:240 | one stripped tag per part, in order |
| HspExperimentalApi.ParseTagsMeaning | app/api/hsp_experimental.py:237-246 | there is no tag filter exactly when the string is absent or empty; otherwise one stripped, comma-free tag per comma-separated part, the parts joined by commas giving the string back |
| HspExperimentalApi.BlankTags | app/api/hsp_experimental.py:237-246 | a tag string of one space gives the single empty tag, not "no filter" |
| HspExperimentalApi.SearchHandler | app/api/hsp_experimental.py:236-250 | the experiments returned are the data manager's search with the parsed tags, in list order; they are exactly the listed experiments matching the query, and the count returned is their number |
| HspExperimentalApi.FirstMeaning | app/api/hsp_experimental.py:362-377 | a manual value is never overwritten, a missing one is taken from the database record and failing that from the attached record, and it stays missing only when all three lack it |
| HspExperimentalApi.ResolveCoordinates | app/api/hsp_experimental.py:358-377 | the reassignments give, per coordinate, the first of manual value, database value and attached value |
| HspExperimentalApi.EntryMeaning | app/api/hsp_experimental.py:383-394 | a test is plotted exactly when it has a name and all three coordinates resolve; its point then carries all four keys, its name and the colour of its solubility |
| HspExperimentalApi.PreparedPlotted | app/api/hsp_experimental.py:383-394 | every prepared record has the keys the visualization needs, so each becomes a point |
| HspExperimentalApi.PrepareSolventData | app/api/hsp_experimental.py:352-401 | the preparation loop gives the records of the plottable tests in order, and an error exactly when there are none |
| SmilesPredictor.PredictBatch | app/api/smiles_predictor.py:83-113 | more than 100 SMILES are refused exactly; otherwise the predictions in order, their number and a valid count that never exceeds it |
| SmilesPredictor.ValidCountMeaning | app/api/smiles_predictor.py:103 | the valid count is the total exactly when every prediction is valid, and zero exactly when none is |
| SmilesPredictor.BatchCounts | app/api/smiles_predictor.py:92-109 | a batch of at most 100 is answered, and its counts read as above |
| SmilesPredictor.ChoCellMeaning | app/api/smiles_predictor.py:177 | true, false and unknown CHO give three different cells: "Yes", "No" and the missing value |
| SmilesPredictor.FormulaCell | app/api/smiles_predictor.py:176 | the missing value is written exactly when the formula is absent, empty or the missing value itself; otherwise the formula |
| SmilesPredictor.ValueCellsMeaning | app/api/smiles_predictor.py:183-186 | one cell per value; a cell is the missing value exactly when its value is absent, and otherwise that value with two decimals for the parameters and one for the boiling point |
| SmilesPredictor.ArchivePathsMeaning | app/api/smiles_predictor.py:190-283 | no member is written twice; the CSV, the JSON and the README are always there, the HTML and SVG structure files exactly when a non-empty SVG is given |
| SmilesPredictor.ExportAsWritten | app/api/smiles_predictor.py:155-303 | as written the export fails exactly when a value is missing; otherwise the archive holds the specified members and the file name is the sanitised one |
| SmilesPredictor.ExportPackage | app/api/smiles_predictor.py:155-303 | the corrected package: the same members and file name, and four value cells in the CSV and in the README |
| SmilesPredictor.ExportAsWrittenFails | app/api/smiles_predictor.py:262-267 | as written the export fails exactly when any of δD, δP, δH and the boiling point is missing |
| SmilesPredictor.EthanolExportFails | app/api/smiles_predictor.py:262-267 | as written, Ethanol predicted without a boiling point cannot be exported |
| SmilesPredictor.ExportPackageMeaning | app/api/smiles_predictor.py:155-303 | the corrected export always gives a package; a CSV value is "-" and a README value "N/A" exactly when missing; where the code as written succeeds it gives the same package |
| SmilesPredictor.Keep | app/api/smiles_predictor.py:289 | the filter keeps only letters, digits, spaces, '-' and '_', and never lengthens the name |
| SmilesPredictor.KeepMeaning | app/api/smiles_predictor.py:289 | a character survives exactly when it is in the name and allowed |
| SmilesPredictor.KeepAllowed | app/api/smiles_predictor.py:289 | a name of allowed characters passes whole |
| SmilesPredictor.SafeNameMeaning | app/api/smiles_predictor.py:289-290 | the safe stem is no longer than the name, holds only letters, digits, '-' and '_', holds exactly the letters, digits and '-' of the name, and keeps any '_' |
| SmilesPredictor.SafeNameChars | app/api/smiles_predictor.py:289-290 | every character of the safe stem is a letter, digit, '-' or '_' |
| SmilesPredictor.SafeNameKeeps | app/api/smiles_predictor.py:289-290 | a letter, digit or '-' of the name reaches the stem |
| SmilesPredictor.SafeNameFrom | app/api/smiles_predictor.py:289-290 | a character of the stem other than '_' comes from the name |
| SmilesPredictor.SafeNameOfSafe | app/api/smiles_predictor.py:289-290 | a name that is already a safe stem is unchanged |
| SmilesPredictor.SafeNameIdempotent | app/api/smiles_predictor.py:289-290 | sanitising twice is sanitising once |
| SmilesPredictor.ExportFilenameMeaning | app/api/smiles_predictor.py:289-292 | for a digits-only date the file name starts with the stem, ends in ".zip", and before that holds only letters, digits, '-' and '_' |

## Left out

- The optimisers are not modelled because they are external, stochastic numerical libraries. This covers hspipy's `HSPEstimator`/`HSP`, scipy's `differential_evolution` in `ConcentricSpheroidsHSP.fit`, and the temporary-CSV path through `hsp.get` in `calculate_hsp_from_tests`. Any fitted `[D, P, H, R]` is an arbitrary input, and `fit` keeps only its default bounds and the stored result.
- `log`, `exp` and `cosh` are function parameters, because Dafny has no transcendental functions. They appear in the cross-entropy loss, the log-barrier interior branch, the exponential loss and the log-cosh loss. Only the facts the proofs use are required of them (monotonicity, `exp(0) = 1`), so the log-cosh loss is modelled only abstractly.
- Square roots are parameters or are avoided: comparisons go through squared distances, and the losses take RED as input. `calculate_red` returns `+inf` for a radius of zero or less, and this is an explicit case.
- The standard deviations, medians and percentiles of `compute_loss_statistics` are not modelled; only its count, minimum, maximum, mean and coefficient of variation are. The standard deviations and parameter statistics of the leave-one-out results are not modelled either. These need square roots or order statistics and do not bear on the selection.
- The sphere meshes (`generate_sphere_coordinates`, `concentric_spheroids.plot_results`) are not modelled, because they are trigonometric. The axis range takes the mesh as three given coordinate grids.
- Visualization.AxisMax: the fallback `if all_x else 25.0` is unreachable, because `min` of an empty list raises first. The model returns None in that case.
- The machine-learning subsystem (`app/ml/train.py`, `app/ml/predictor.py`) and the RDKit branch of `determine_cho_only` are left out because sklearn, RDKit and joblib are external. The SMILES predictor is a parameter that gives one prediction per SMILES string.
- The HTTP layer, file I/O and OS calls are not modelled:
  - `app/main.py`, `start.py` and the other routers;
  - the FastAPI, ZIP and StreamingResponse parts of `app/api/hsp_experimental.py` and `app/api/smiles_predictor.py`;
  - JSON and CSV reading and writing, including the CSV, JSON and HTML serialisation of the export package;
  - `glob`, `mtime` sorting, `uuid`, clocks and timestamps.

  HTTP status codes become `Err` results. A file read is a parameter that gives None when the file is missing. Identifiers and dates are inputs. Directory listings, and the orders of glob, mtime and dictionaries, are given as sequences.
- Float formatting (`:.2f`, `:.1f`) and `float()` on strings are parameters or the abstract cell `Fixed(x, decimals)`, because decimal rendering is not the point of the model.
- Printing, logging, timing (`execution_time_ms`), plotting, the Plotly trace and layout dictionaries, `app/config.py` and the package `__init__` files are left out because they compute nothing the core decides.
- The driver, debug and test scripts (`scripts/debug`, `tests`, `practice`, and the hansentest drivers other than the accuracy loop) are left out. They call the estimator, talk to a server or print. `SoftBoundaryLoss`, which two drivers import, is defined nowhere in `hansentest/alternative_loss.py`.
- The legacy `inside_limit` classification is not modelled because it describes hspipy's internals, not code of this repository. Neither is a radius-only fitting procedure, because none exists in the repository.
- `SolventData` fields that no modelled operation reads are left out of the record datatype: `inchi_key` and the GHS and H statements. Their names are still among the declared attribute names `SolventModels.SolventDataFields`. `SolventData` has no `source_url` field at all (see Findings).
- Four operations are not modelled, because they only report statistics or copy files: `get_hsp_range_stats`, `get_data_info`, `get_storage_stats` and `backup_data`. Two pieces of state are also left out: `_save_to_csv` (it writes a file) and `_last_loaded` (a timestamp).
- HspExperimentalApi: the 400 check on `calculated_hsp` (app/api/hsp_experimental.py:341-346) is not modelled, because the experiment record modelled here has no `calculated_hsp` field. The model stops at the solvent records prepared for plotting.
- HspExperimentalApi.ResolveCoordinates: an exception from the database lookup is modelled as the lookup giving None, which is what the handler's `except` leaves.
- HspExperimentalApi.PageMeaning: of `list_experiments`, only the page arithmetic is modelled. Loading each file is the data manager's slice.
- The single-SMILES and health endpoints of `app/api/smiles_predictor.py` are left out, and so is the mapping of predictor errors to 503 and 500. They are thin wrappers around the predictor. The formula and CHO cells are separate functions, not part of the package datatype.
- SolventService.AddTo, AddMeaning, AddIndexMeaning: these state the add with the `source_url` entry dropped, the corrected half of the Findings row for line 344. As written every add of a new solvent returns False and changes nothing; that is AddAsWrittenFails, which `Service.AddSolvent` follows.
- SolventService.NewRowAsWritten, NewRowAsWrittenLoses: the row the dictionary at lines 324-346 describes is never built as written, because the `source_url` entry raises first. They describe the row the corrected add (`AddTo`) appends, which still goes to "Cas" and "Tv".
- SolventService.UpdateIn, UpdateMeaning: these state the update with the `source_url` assignment dropped, the corrected half of the Findings row for line 448. As written the update returns False with the row rewritten and the old index kept; that is UpdateAsWrittenMeaning, which `Service.UpdateSolvent` follows.
- SolventService.UpdateReading: only the case where the raising attribute is the last assignment is modelled; `source_url` is the last one (UpdateRaises), so the earlier writes all happen before it raises.
- SizeFactorSelection.LeaveOneOutCv: a single solvent is excluded. Its only fold has no training data, and the estimator's fit, which is not modelled, raises on it.
- Sorting.SortBy stands for `DataFrame.sort_values` as well as for `sorted`. `sort_values` uses pandas' default quicksort, which gives equal keys no guaranteed order. So the tie order of the consolidated outputs (ConsolidateSolvent.SolventConsolidator.ConsolidateFiles, ConsolidateLegacy.CsvConsolidator.ConsolidateFiles, DuplicateRegistry.SortedMeaning) and of EvaluationMetrics.FindProblematicSolvents is the model's choice, not the program's. Only the order of unequal keys and the set of rows are the program's.
- SolventService.DeleteMeaning: the contract says that the deleted name no longer resolves to a row of exactly that name. It does not say the name stops resolving altogether. A row whose name differs only in case or spacing, or a CAS key, can still answer the lookup.
- SolventService.TextHit: `None` and NaN cells are searched as the texts "None" and "nan". So the query "none" matches a row without a CAS number. This is how pandas 2 behaves after `replace('', None)`; older pandas versions are not modelled.
- Numeric columns are assumed to hold numbers once loaded. `pd.to_numeric` coercion of text cells is not modelled. A missing string column is read as a column of NaN cells, which is not what the program does:
  - `search_solvents` raises KeyError on `df['CAS']` or `df['Smiles']` when that column is absent (app/services/solvent_service.py:196-198);
  - scripts/add_common_names_to_solvent.py:52,59 read an absent 'Solvent' through `row.get` as None, so a rewritten row becomes "None (X)", not "nan (X)".
- Character classes (`isalpha`, `isdigit`, `isalnum`, `lower`, `strip`) are the ASCII ones. `strip` and `\s` remove every ASCII character Python counts as whitespace, including the separators `\x1c` to `\x1f`. Python's classes are Unicode-aware, so non-ASCII letters and spaces are treated as other characters.
- DataManager.List: `limit` and `offset` are natural numbers. The endpoint enforces this, and negative slices are not modelled.
- DataManager: a JSON `null` in an experiment's tag list is not modelled, because tags are a list of strings.
- Integer truncation (`int(completeness * 100)`, `int(float(token))`): the model truncates toward zero explicitly, as Python does. Floating-point rounding of the product is not modelled.

## Findings

| source | as written | input that shows it | evidently intended | confidence | as-written member | corrected member |
|---|---|---|---|---|---|---|
| app/services/hsp_calculator.py:134-141 | `'delta_d' in solvent_data` tests a key of a pydantic model, which is never true, so an attached solvent record is ignored | a test with no manual values, no database entry and an attached record (15.5, 10.4, 7.0) gets no coordinates | use the attached record's δD, δP and δH | not executed | HspCalculator.ExtractHspValuesAsWritten | HspCalculator.ExtractHspValues |
| scripts/consolidate_solvent_csv.py:267 | `numeric_fields` lists 'Tv', but `normalize_column_names` has already renamed that column to 'Tb' (line 197), so the boiling point is never cleaned | a file with columns Solvent, Tv and the cell "-" under Tv keeps "-" as the boiling point | clean the 'Tb' column as a float that may be negative | not executed | ConsolidateSolvent.BoilingPointUncleaned | ConsolidateSolvent.BoilingPointRule |
| app/services/solvent_service.py:329-335 | `add_solvent` (and `update_solvent` at lines 436-442) write the CAS number and boiling point under 'Cas' and 'Tv', while rows are read back from 'CAS' and 'Tb' (lines 139-145) | update a user-added solvent's CAS number: the 'Cas'/'Tv' writes at lines 436-442 happen before line 448 raises; a later `delete_solvent` of another user row rebuilds the index from the table, and the updated solvent still answers to its old CAS number, while the new one is not read back | write the columns the reader uses | not executed | SolventService.RebuiltIndexKeepsOldCas | SolventService.UpdatedRowKeepsCas |
| app/api/smiles_predictor.py:262-267 | the README of the export package formats δD, δP, δH and Tv with `:.2f`/`:.1f`, so a missing value raises `TypeError` and the request fails with 500, although the CSV built at lines 183-186 writes a missing value as '-' | Ethanol with δD 15.8, δP 8.8, δH 19.4 and no boiling point | write a missing value as N/A, as the README already does for the formula and CHO | not executed | SmilesPredictor.ExportAsWrittenFails | SmilesPredictor.ExportPackageMeaning |
| app/services/solvent_service.py:344 | the new-row dictionary of `add_solvent` reads `solvent_data.source_url`, which `SolventData` (app/models/solvent_models.py:17-52) does not declare; the AttributeError is caught at line 363, so every add of a new solvent returns False and changes nothing | `add_solvent(SolventData(solvent="X", delta_d=15, delta_p=5, delta_h=5))` on a loaded table without "X" | build the row from the declared fields (drop the `source_url` entry), append it and index it | not executed | SolventService.AddAsWrittenFails | SolventService.AddIndexMeaning |
| app/services/solvent_service.py:448 | `update_solvent` assigns `solvent_data.source_url` last; it raises after the other `.at` writes (lines 432-447) have changed the row, so the handler at line 459 returns False, `_create_index` (line 451) never runs and the index is stale | update a user-added solvent "X" to δD 16: the row holds 16, the index still maps "x" to the record with the old δD, and the call returns False | drop the `source_url` assignment, then rebuild the index and return True | not executed | SolventService.UpdateAsWrittenMeaning | SolventService.UpdateMeaning |

In every row the operations of the model (the conversion and validation
loops, `Service.AddSolvent`, `Service.UpdateSolvent`, the consolidation row
loop and the export) use the as-written member. The corrected member, with
the intended property proved, is not called by them. Because the add as
written never appends a row, the 'Cas'/'Tv' defect reaches the table only
through an update.
