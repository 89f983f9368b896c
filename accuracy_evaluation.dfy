/**
 * The accuracy evaluation of hansentest/test_theory_based_loss.py: a
 * solvent is predicted good when its RED is below 1 and is actually good
 * when its score is at least 0.5; correct predictions are counted overall
 * and per category, turned into percentages, and the fitted results are
 * ranked by accuracy and by balance between good and poor accuracy.
 */
module AccuracyEvaluation {

  import opened Common
  import opened Sorting

  /** `predicted_good == actual_good`. */
  predicate IsCorrect(red: real, y: real)
  {
    (red < 1.0) == (y >= 0.5)
  }

  datatype Bucket = GoodBucket | PartialBucket | PoorBucket

  /** The counter a correct sample increments: 1.0 is good, 0.5 is partial,
      every other score is poor. */
  function BucketOf(y: real): Bucket
  {
    if y == 1.0 then GoodBucket else if y == 0.5 then PartialBucket else PoorBucket
  }

  /** Number of correct samples among the first `n`, optionally restricted
      to a bucket. */
  function CorrectCount(red: seq<real>, y: seq<real>, n: nat, b: Option<Bucket>): (c: nat)
    requires n <= |red| && n <= |y|
    ensures c <= n
  {
    if n == 0 then 0
    else
      var hit := IsCorrect(red[n - 1], y[n - 1]) && (b.None? || BucketOf(y[n - 1]) == b.value);
      CorrectCount(red, y, n - 1, b) + (if hit then 1 else 0)
  }

  /** The counting loop: `correct` and the three category counters. */
  method CountCorrect(red: seq<real>, y: seq<real>)
    returns (correct: nat, goodCorrect: nat, partialCorrect: nat, poorCorrect: nat)
    requires |red| == |y|
    ensures correct == CorrectCount(red, y, |y|, None)
    ensures goodCorrect == CorrectCount(red, y, |y|, Some(GoodBucket))
    ensures partialCorrect == CorrectCount(red, y, |y|, Some(PartialBucket))
    ensures poorCorrect == CorrectCount(red, y, |y|, Some(PoorBucket))
  {
    correct, goodCorrect, partialCorrect, poorCorrect := 0, 0, 0, 0;
    for i := 0 to |y|
      invariant correct == CorrectCount(red, y, i, None)
      invariant goodCorrect == CorrectCount(red, y, i, Some(GoodBucket))
      invariant partialCorrect == CorrectCount(red, y, i, Some(PartialBucket))
      invariant poorCorrect == CorrectCount(red, y, i, Some(PoorBucket))
    {
      var predictedGood := red[i] < 1.0;
      var actualGood := y[i] >= 0.5;
      if predictedGood == actualGood {
        correct := correct + 1;
        if y[i] == 1.0 {
          goodCorrect := goodCorrect + 1;
        } else if y[i] == 0.5 {
          partialCorrect := partialCorrect + 1;
        } else {
          poorCorrect := poorCorrect + 1;
        }
      }
    }
  }

  /** Every correct sample lands in exactly one category counter. */
  lemma {:induction false} BucketsSumToCorrect(red: seq<real>, y: seq<real>, n: nat)
    requires n <= |red| && n <= |y|
    ensures CorrectCount(red, y, n, Some(GoodBucket)) + CorrectCount(red, y, n, Some(PartialBucket))
          + CorrectCount(red, y, n, Some(PoorBucket)) == CorrectCount(red, y, n, None)
  {
    if n > 0 {
      BucketsSumToCorrect(red, y, n - 1);
    }
  }

  /** Number of samples among the first `n` whose score is exactly `c`. */
  function ScoreCount(y: seq<real>, n: nat, c: real): (k: nat)
    requires n <= |y|
    ensures k <= n
  {
    if n == 0 then 0 else ScoreCount(y, n - 1, c) + (if y[n - 1] == c then 1 else 0)
  }

  /** A category's correct count never exceeds its number of samples when
      the only scores are 1.0, 0.5 and 0.0. */
  lemma {:induction false} BucketBounded(red: seq<real>, y: seq<real>, n: nat)
    requires n <= |red| && n <= |y|
    requires forall i :: 0 <= i < |y| ==> y[i] == 1.0 || y[i] == 0.5 || y[i] == 0.0
    ensures CorrectCount(red, y, n, Some(GoodBucket)) <= ScoreCount(y, n, 1.0)
    ensures CorrectCount(red, y, n, Some(PartialBucket)) <= ScoreCount(y, n, 0.5)
    ensures CorrectCount(red, y, n, Some(PoorBucket)) <= ScoreCount(y, n, 0.0)
  {
    if n > 0 {
      BucketBounded(red, y, n - 1);
    }
  }

  /** `correct / len(X) * 100`; an empty data set divides by zero. */
  function Accuracy(correct: nat, n: nat): Option<real>
  {
    if n == 0 then None else Some(correct as real / n as real * 100.0)
  }

  /** Per-category accuracy: 0 for an empty category. */
  function CategoryAccuracy(correct: nat, count: nat): real
  {
    if count > 0 then correct as real / count as real * 100.0 else 0.0
  }

  /** Overall accuracy lies in [0, 100]; with scores in {1.0, 0.5, 0.0} so
      does every category accuracy, and an empty category scores 0. */
  lemma AccuracyBounds(red: seq<real>, y: seq<real>)
    requires |red| == |y| > 0
    ensures 0.0 <= Accuracy(CorrectCount(red, y, |y|, None), |y|).value <= 100.0
    ensures forall b, c :: ScoreCount(y, |y|, c) == 0 ==> CategoryAccuracy(CorrectCount(red, y, |y|, Some(b)), ScoreCount(y, |y|, c)) == 0.0
    ensures (forall i :: 0 <= i < |y| ==> y[i] == 1.0 || y[i] == 0.5 || y[i] == 0.0) ==>
      && 0.0 <= CategoryAccuracy(CorrectCount(red, y, |y|, Some(GoodBucket)), ScoreCount(y, |y|, 1.0)) <= 100.0
      && 0.0 <= CategoryAccuracy(CorrectCount(red, y, |y|, Some(PartialBucket)), ScoreCount(y, |y|, 0.5)) <= 100.0
      && 0.0 <= CategoryAccuracy(CorrectCount(red, y, |y|, Some(PoorBucket)), ScoreCount(y, |y|, 0.0)) <= 100.0
  {
    PercentBounds(CorrectCount(red, y, |y|, None), |y|);
    if forall i :: 0 <= i < |y| ==> y[i] == 1.0 || y[i] == 0.5 || y[i] == 0.0 {
      BucketBounded(red, y, |y|);
      var n := |y|;
      if ScoreCount(y, n, 1.0) > 0 { PercentBounds(CorrectCount(red, y, n, Some(GoodBucket)), ScoreCount(y, n, 1.0)); }
      if ScoreCount(y, n, 0.5) > 0 { PercentBounds(CorrectCount(red, y, n, Some(PartialBucket)), ScoreCount(y, n, 0.5)); }
      if ScoreCount(y, n, 0.0) > 0 { PercentBounds(CorrectCount(red, y, n, Some(PoorBucket)), ScoreCount(y, n, 0.0)); }
    }
  }

  /** The poor counter takes every score other than 1.0 and 0.5 but is
      divided by the number of 0.0 scores, so other scores can push the
      poor accuracy above 100: scores [0.0, 0.3] outside the sphere give
      200. */
  lemma PoorAccuracyOtherScores()
    ensures CorrectCount([2.0, 2.0], [0.0, 0.3], 2, Some(PoorBucket)) == 2
    ensures ScoreCount([0.0, 0.3], 2, 0.0) == 1
    ensures CategoryAccuracy(2, 1) == 200.0
  {
  }

  // ------------------------------------------------------------- ranking

  datatype AccuracyResult = AccuracyResult(
    loss: string, d: real, p: real, h: real, ra: real,
    accuracy: real, goodAcc: real, partialAcc: real, poorAcc: real)

  function NegAccuracy(r: AccuracyResult): real
  {
    -r.accuracy
  }

  /** `sorted(results, key=accuracy, reverse=True)`. */
  function RankByAccuracy(results: seq<AccuracyResult>): (ranked: seq<AccuracyResult>)
    ensures |ranked| == |results| && multiset(ranked) == multiset(results)
    ensures forall i, j :: 0 <= i < j < |ranked| ==> ranked[i].accuracy >= ranked[j].accuracy
  {
    var s := SortBy(results, NegAccuracy);
    assert forall i, j :: 0 <= i < j < |s| ==> NegAccuracy(s[i]) <= NegAccuracy(s[j]);
    s
  }

  /** `best`, the head of the ranking, has the highest accuracy of all,
      and it is the first result of that accuracy, since `sorted` is stable
      also with `reverse=True`. */
  lemma BestIsMostAccurate(results: seq<AccuracyResult>)
    requires |results| > 0
    ensures RankByAccuracy(results)[0] in results
    ensures forall r :: r in results ==> RankByAccuracy(results)[0].accuracy >= r.accuracy
    ensures exists k :: (0 <= k < |results| && results[k] == RankByAccuracy(results)[0] &&
      (forall j :: 0 <= j < k ==> results[j].accuracy < results[k].accuracy))
  {
    SortByHead(results, NegAccuracy);
    var ranked := RankByAccuracy(results);
    assert ranked[0] in multiset(ranked);
    forall r | r in results ensures ranked[0].accuracy >= r.accuracy {
      assert r in multiset(ranked);
      var j :| 0 <= j < |ranked| && ranked[j] == r;
      assert j == 0 || ranked[0].accuracy >= ranked[j].accuracy;
    }
  }

  /** Balance of a result: the lower of its good and poor accuracies. */
  function Balance(r: AccuracyResult): real
  {
    Min(r.goodAcc, r.poorAcc)
  }

  /** `max(results, key=balance)`: the first result of greatest balance. */
  function BestBalanced(results: seq<AccuracyResult>): (k: nat)
    requires |results| > 0
    ensures k < |results|
    ensures forall i :: 0 <= i < |results| ==> Balance(results[i]) <= Balance(results[k])
    ensures forall i :: 0 <= i < k ==> Balance(results[i]) < Balance(results[k])
  {
    if |results| == 1 then 0
    else
      var k := BestBalanced(results[..|results| - 1]);
      assert forall i :: 0 <= i < |results| - 1 ==> results[..|results| - 1][i] == results[i];
      if Balance(results[|results| - 1]) > Balance(results[k]) then |results| - 1 else k
  }
}
