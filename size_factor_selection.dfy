/**
 * hansentest/optimize_size_factor.py: leave-one-out cross-validation of
 * the continuous loss for a size factor, the choice of the best size
 * factor under three criteria, and the three-way accuracy rule of the
 * final model. Fitting is done by an external optimiser: for fold i the
 * model takes as input the RED of every solvent under the parameters
 * fitted on that fold's training part.
 */
module SizeFactorSelection {

  import opened Common
  import opened ContinuousLoss

  /** `size_factor if size_factor > 0 else None`. */
  function LossSizeFactor(sf: real): (r: Option<real>)
    ensures r.Some? <==> sf > 0.0
    ensures r.Some? ==> r.value == sf
  {
    if sf > 0.0 then Some(sf) else None
  }

  /** A zero (or negative) size factor trains without a size penalty: the
      loss is the plain mean of the per-sample terms. */
  lemma ZeroSizeFactorNoPenalty(sf: real, radius: real, red: seq<real>, y: seq<real>)
    requires sf <= 0.0 && |red| == |y|
    ensures ContinuousLossValue(LossSizeFactor(sf), radius, red, y) == Mean(ContinuousTerms(red, y))
  {
  }

  // ------------------------------------------------------------ LOOCV split

  function Range(a: nat, b: nat): (r: seq<nat>)
    requires a <= b
    ensures |r| == b - a && forall k :: 0 <= k < |r| ==> r[k] == a + k
  {
    seq(b - a, k requires 0 <= k < b - a => a + k)
  }

  /** `concatenate([arange(i), arange(i+1, n)])`. */
  function TrainIndices(n: nat, i: nat): seq<nat>
    requires i < n
  {
    Range(0, i) + Range(i + 1, n)
  }

  function TestIndices(i: nat): seq<nat>
  {
    [i]
  }

  /** The train indices are 0..n−1 without i, in increasing order; with the
      test index they cover 0..n−1 exactly once. */
  lemma FoldPartition(n: nat, i: nat)
    requires i < n
    ensures |TrainIndices(n, i)| == n - 1
    ensures forall a, b :: 0 <= a < b < n - 1 ==> TrainIndices(n, i)[a] < TrainIndices(n, i)[b]
    ensures forall k: nat :: k < n ==> (k in TrainIndices(n, i) <==> k != i) && (k in TestIndices(i) <==> k == i)
    ensures forall j :: 0 <= j < n - 1 ==> TrainIndices(n, i)[j] < n
  {
    var t := TrainIndices(n, i);
    forall k: nat | k < n && k != i ensures k in t {
      if k < i { assert t[k] == k; } else { assert t[k - 1] == k; }
    }
  }

  /** `v[idx]` for an index array. */
  function Select(v: seq<real>, idx: seq<nat>): (r: seq<real>)
    requires forall j :: 0 <= j < |idx| ==> idx[j] < |v|
    ensures |r| == |idx|
  {
    seq(|idx|, j requires 0 <= j < |idx| => v[idx[j]])
  }

  datatype CvResult = CvResult(meanTestLoss: real, meanTrainLoss: real, testLosses: seq<real>, trainLosses: seq<real>)

  /** Base losses of fold i on its training part and on its test solvent. */
  function FoldTrainLoss(redFold: seq<real>, y: seq<real>, i: nat): real
    requires |redFold| == |y| >= 2 && i < |y|
  {
    FoldPartition(|y|, i);
    var train := TrainIndices(|y|, i);
    Mean(ContinuousTerms(Select(redFold, train), Select(y, train))).value
  }

  function FoldTestLoss(redFold: seq<real>, y: seq<real>, i: nat): real
    requires |redFold| == |y| && i < |y|
  {
    Mean(ContinuousTerms(Select(redFold, TestIndices(i)), Select(y, TestIndices(i)))).value
  }

  predicate FoldsWellSized(reds: seq<seq<real>>, y: seq<real>)
  {
    |reds| == |y| && forall i :: 0 <= i < |reds| ==> |reds[i]| == |y|
  }

  /** `leave_one_out_cv`: one fold per solvent; the four means/lists of the
      result (standard deviations and parameter statistics left out). With
      no solvents no fold runs, the lists are empty and both means are
      `np.mean([])`, NaN: that result is None. A single solvent leaves the
      first fold no training data, on which the estimator's fit raises;
      the fit is not part of this model, so that case is excluded. */
  method LeaveOneOutCv(y: seq<real>, reds: seq<seq<real>>) returns (r: Option<CvResult>)
    requires |y| != 1 && FoldsWellSized(reds, y)
    ensures r.None? <==> |y| == 0
    ensures r.Some? ==> |r.value.testLosses| == |y| && |r.value.trainLosses| == |y|
    ensures r.Some? ==> forall i :: 0 <= i < |y| ==>
      r.value.testLosses[i] == FoldTestLoss(reds[i], y, i) && r.value.trainLosses[i] == FoldTrainLoss(reds[i], y, i)
    ensures r.Some? ==> r.value.meanTestLoss == Mean(r.value.testLosses).value && r.value.meanTrainLoss == Mean(r.value.trainLosses).value
  {
    var n := |y|;
    var testLosses: seq<real> := [];
    var trainLosses: seq<real> := [];
    for i := 0 to n
      invariant |testLosses| == i && |trainLosses| == i
      invariant forall k :: 0 <= k < i ==>
        testLosses[k] == FoldTestLoss(reds[k], y, k) && trainLosses[k] == FoldTrainLoss(reds[k], y, k)
    {
      FoldPartition(n, i);
      var trainIdx := TrainIndices(n, i);
      var testIdx := TestIndices(i);
      var trainBase := Mean(ContinuousTerms(Select(reds[i], trainIdx), Select(y, trainIdx))).value;
      var testBase := Mean(ContinuousTerms(Select(reds[i], testIdx), Select(y, testIdx))).value;
      trainLosses := trainLosses + [trainBase];
      testLosses := testLosses + [testBase];
    }
    if n == 0 {
      return None;
    }
    r := Some(CvResult(Mean(testLosses).value, Mean(trainLosses).value, testLosses, trainLosses));
  }

  /** The test loss of a fold is the continuous term of the held-out
      solvent alone, and is non-negative for a score in [0, 1]. */
  lemma FoldTestLossMeaning(redFold: seq<real>, y: seq<real>, i: nat)
    requires |redFold| == |y| && i < |y| && 0.0 <= y[i] <= 1.0
    ensures FoldTestLoss(redFold, y, i) == ContinuousTerm(redFold[i], y[i])
    ensures FoldTestLoss(redFold, y, i) >= 0.0
  {
    var t := ContinuousTerms(Select(redFold, TestIndices(i)), Select(y, TestIndices(i)));
    assert t == [ContinuousTerm(redFold[i], y[i])];
    assert Sum(t) == Sum([]) + t[0];
    ContinuousTermMeaning(redFold[i], y[i]);
  }

  // ----------------------------------------------- select_best_size_factor

  datatype Criterion = TestLoss | Overfitting | Balanced

  /** The criterion names the selection recognises. */
  function ParseCriterion(name: string): (c: Option<Criterion>)
    ensures c.Some? <==> name in {"test_loss", "overfitting", "balanced"}
  {
    if name == "test_loss" then Some(TestLoss)
    else if name == "overfitting" then Some(Overfitting)
    else if name == "balanced" then Some(Balanced)
    else None
  }

  /** The score of a size factor's CV result under a criterion. */
  function Score(c: Criterion, r: CvResult): real
  {
    var gap := Abs(r.meanTestLoss - r.meanTrainLoss);
    match c
    case TestLoss => r.meanTestLoss
    case Overfitting => gap
    case Balanced => 0.7 * r.meanTestLoss + 0.3 * gap
  }

  /** Index of the first entry with the least score. */
  function FirstMin(scores: seq<real>): (k: nat)
    requires |scores| > 0
    ensures k < |scores|
    ensures forall i :: 0 <= i < |scores| ==> scores[k] <= scores[i]
    ensures forall i :: 0 <= i < k ==> scores[i] > scores[k]
  {
    if |scores| == 1 then 0
    else
      var k := FirstMin(scores[..|scores| - 1]);
      assert forall i :: 0 <= i < |scores| - 1 ==> scores[..|scores| - 1][i] == scores[i];
      if scores[|scores| - 1] < scores[k] then |scores| - 1 else k
  }

  function ScoresOf(c: Criterion, results: seq<(real, CvResult)>): (s: seq<real>)
    ensures |s| == |results|
    ensures forall i :: 0 <= i < |results| ==> s[i] == Score(c, results[i].1)
  {
    seq(|results|, i requires 0 <= i < |results| => Score(c, results[i].1))
  }

  /** The `scores` dictionary after the loop: empty for an unknown criterion.
      The results come from a dictionary keyed by size factor, so the
      factors are distinct; were a factor repeated, the map would keep its
      last score while the selection still scans every entry. */
  function ScoreMap(criterion: string, results: seq<(real, CvResult)>): map<real, real>
  {
    if |results| == 0 || ParseCriterion(criterion).None? then map[]
    else
      var last := results[|results| - 1];
      ScoreMap(criterion, results[..|results| - 1])[last.0 := Score(ParseCriterion(criterion).value, last.1)]
  }

  /** `min(scores, key=scores.get)`, which raises on an empty dictionary;
      the result holds the chosen size factor and the dictionary. */
  function SelectSpec(criterion: string, results: seq<(real, CvResult)>): Result<(real, map<real, real>)>
  {
    if |results| == 0 || ParseCriterion(criterion).None? then Err("min() arg is an empty sequence")
    else
      var k := FirstMin(ScoresOf(ParseCriterion(criterion).value, results));
      Ok((results[k].0, ScoreMap(criterion, results)))
  }

  /** `select_best_size_factor`: scores filled in a loop over the CV
      results in dictionary order, then the first size factor of least
      score. */
  method SelectBestSizeFactor(results: seq<(real, CvResult)>, criterion: string) returns (r: Result<(real, map<real, real>)>)
    ensures r == SelectSpec(criterion, results)
  {
    var scores: map<real, real> := map[];
    var order: seq<real> := [];
    var c := ParseCriterion(criterion);
    for i := 0 to |results|
      invariant c.Some? ==> order == ScoresOf(c.value, results[..i])
      invariant scores == ScoreMap(criterion, results[..i])
    {
      var sf := results[i].0;
      var res := results[i].1;
      ScoreStep(criterion, results, i);
      if criterion == "test_loss" {
        scores := scores[sf := res.meanTestLoss];
        order := order + [res.meanTestLoss];
      } else if criterion == "overfitting" {
        scores := scores[sf := Abs(res.meanTestLoss - res.meanTrainLoss)];
        order := order + [Abs(res.meanTestLoss - res.meanTrainLoss)];
      } else if criterion == "balanced" {
        var gap := Abs(res.meanTestLoss - res.meanTrainLoss);
        scores := scores[sf := 0.7 * res.meanTestLoss + 0.3 * gap];
        order := order + [0.7 * res.meanTestLoss + 0.3 * gap];
      }
    }
    assert results[..|results|] == results;
    if |order| == 0 || c.None? {
      return Err("min() arg is an empty sequence");
    }
    var k := FirstMin(order);
    r := Ok((results[k].0, scores));
  }

  lemma ScoreStep(criterion: string, results: seq<(real, CvResult)>, i: nat)
    requires i < |results|
    ensures ScoreMap(criterion, results[..i + 1]) ==
      if ParseCriterion(criterion).None? then map[]
      else ScoreMap(criterion, results[..i])[results[i].0 := Score(ParseCriterion(criterion).value, results[i].1)]
    ensures ParseCriterion(criterion).Some? ==>
      var c := ParseCriterion(criterion).value;
      ScoresOf(c, results[..i + 1]) == ScoresOf(c, results[..i]) + [Score(c, results[i].1)]
  {
    assert results[..i + 1][..i] == results[..i];
  }

  /** Selection fails exactly for an unknown criterion or no results;
      otherwise the chosen size factor is one of the candidates, its score
      is the least of all, and no earlier candidate ties with it. */
  lemma SelectionMeaning(criterion: string, results: seq<(real, CvResult)>)
    ensures SelectSpec(criterion, results).Err? <==> |results| == 0 || criterion !in {"test_loss", "overfitting", "balanced"}
    ensures SelectSpec(criterion, results).Ok? ==>
      var c := ParseCriterion(criterion).value;
      exists k :: 0 <= k < |results| && results[k].0 == SelectSpec(criterion, results).value.0
        && (forall i :: 0 <= i < |results| ==> Score(c, results[k].1) <= Score(c, results[i].1))
        && (forall i :: 0 <= i < k ==> Score(c, results[i].1) > Score(c, results[k].1))
  {
    if SelectSpec(criterion, results).Ok? {
      var c := ParseCriterion(criterion).value;
      var k := FirstMin(ScoresOf(c, results));
      assert results[k].0 == SelectSpec(criterion, results).value.0;
    }
  }

  /** The three criteria: test loss, the non-negative overfitting gap
      |test − train|, and their 0.7 / 0.3 weighted combination. */
  lemma CriterionScores(r: CvResult)
    ensures Score(TestLoss, r) == r.meanTestLoss
    ensures Score(Overfitting, r) == Abs(r.meanTestLoss - r.meanTrainLoss) && Score(Overfitting, r) >= 0.0
    ensures Score(Balanced, r) == 0.7 * Score(TestLoss, r) + 0.3 * Score(Overfitting, r)
  {
  }

  // --------------------------------------------------- train_final_model

  /** Tolerance of the partial-solvent rule. */
  const PartialTolerance: real := 0.1

  /** A good solvent must be strictly inside, a partial one within 0.1 of
      the boundary, a poor one strictly outside; other scores never count. */
  predicate FinalCorrect(red: real, y: real)
  {
    if y == 1.0 then red < 1.0
    else if y == 0.5 then Abs(red - 1.0) <= PartialTolerance
    else if y == 0.0 then red > 1.0
    else false
  }

  function FinalCorrectCount(red: seq<real>, y: seq<real>, n: nat): (c: nat)
    requires n <= |red| && n <= |y|
    ensures c <= n
  {
    if n == 0 then 0 else FinalCorrectCount(red, y, n - 1) + (if FinalCorrect(red[n - 1], y[n - 1]) then 1 else 0)
  }

  /** The accuracy loop of `train_final_model`; an empty data set divides
      by zero and gives None. */
  method FinalAccuracy(red: seq<real>, y: seq<real>) returns (accuracy: Option<real>)
    requires |red| == |y|
    ensures accuracy.None? <==> |y| == 0
    ensures accuracy.Some? ==> accuracy.value == FinalCorrectCount(red, y, |y|) as real / |y| as real * 100.0
  {
    var correct := 0;
    for i := 0 to |y|
      invariant correct == FinalCorrectCount(red, y, i)
    {
      if y[i] == 1.0 {
        if red[i] < 1.0 {
          correct := correct + 1;
        }
      } else if y[i] == 0.5 {
        if Abs(red[i] - 1.0) <= 0.1 {
          correct := correct + 1;
        }
      } else if y[i] == 0.0 {
        if red[i] > 1.0 {
          correct := correct + 1;
        }
      }
    }
    if |y| == 0 {
      return None;
    }
    accuracy := Some(correct as real / |y| as real * 100.0);
  }

  /** The final accuracy lies in [0, 100]; a solvent exactly on the
      boundary counts only when partial; scores other than 1.0, 0.5, 0.0
      never count. */
  lemma FinalAccuracyMeaning(red: seq<real>, y: seq<real>, r: real, s: real)
    requires |red| == |y| > 0
    ensures 0.0 <= FinalCorrectCount(red, y, |y|) as real / |y| as real * 100.0 <= 100.0
    ensures FinalCorrect(1.0, s) <==> s == 0.5
    ensures s != 1.0 && s != 0.5 && s != 0.0 ==> !FinalCorrect(r, s)
  {
    PercentBounds(FinalCorrectCount(red, y, |y|), |y|);
  }
}
