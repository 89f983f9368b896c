/**
 * hansentest/evaluation_metrics.py: the continuous L2 loss used as an
 * evaluation metric, its decomposition by solubility category, the
 * train/test comparison, the list of badly placed solvents, loss-based
 * model selection and the summary statistics of a list of loss values.
 * RED values are inputs (`dist / R` with the unweighted distance).
 */
module EvaluationMetrics {

  import opened Common
  import opened HansenDistance
  import opened ContinuousLoss
  import opened Sorting

  // ------------------------------------------------------ evaluate_with_loss

  datatype Evaluation = Evaluation(
    totalLoss: real,
    baseLoss: real,
    sizePenalty: real,
    goodPenaltyMean: real,
    poorPenaltyMean: real,
    perSampleLoss: seq<real>,
    redValues: seq<real>)

  function GoodPenalties(red: seq<real>, y: seq<real>): (g: seq<real>)
    requires |red| == |y|
    ensures |g| == |y|
  {
    seq(|y|, i requires 0 <= i < |y| => y[i] * Sq(Max0(red[i] - 1.0)))
  }

  function PoorPenalties(red: seq<real>, y: seq<real>): (p: seq<real>)
    requires |red| == |y|
    ensures |p| == |y|
  {
    seq(|y|, i requires 0 <= i < |y| => (1.0 - y[i]) * Sq(Max0(1.0 - red[i])))
  }

  /** size_factor·R² when a size factor is given, else 0. */
  function SizePenalty(sizeFactor: Option<real>, radius: real): real
  {
    if sizeFactor.Some? then Mul(sizeFactor.value, Sq(radius)) else 0.0
  }

  /** `evaluate_with_loss`; None stands for the NaN means of empty data. */
  function EvaluateWithLoss(radius: real, red: seq<real>, y: seq<real>, sizeFactor: Option<real>): (r: Option<Evaluation>)
    requires |red| == |y|
    ensures r.Some? <==> |y| > 0
    ensures r.Some? ==> r.value.perSampleLoss == ContinuousTerms(red, y) && r.value.redValues == red
  {
    if |y| == 0 then None
    else
      var t := ContinuousTerms(red, y);
      var base := Mean(t).value;
      var size := SizePenalty(sizeFactor, radius);
      Some(Evaluation(base + size, base, size, Mean(GoodPenalties(red, y)).value,
                      Mean(PoorPenalties(red, y)).value, t, red))
  }

  function PointwiseSum(a: seq<real>, b: seq<real>): (c: seq<real>)
    requires |a| == |b|
    ensures |c| == |a|
  {
    seq(|a|, i requires 0 <= i < |a| => a[i] + b[i])
  }

  lemma {:induction false} SumPointwise(a: seq<real>, b: seq<real>)
    requires |a| == |b|
    ensures Sum(PointwiseSum(a, b)) == Sum(a) + Sum(b)
  {
    if |a| > 0 {
      var n := |a| - 1;
      assert PointwiseSum(a, b)[..n] == PointwiseSum(a[..n], b[..n]);
      SumPointwise(a[..n], b[..n]);
    }
  }

  /** The base loss is the mean good penalty plus the mean poor penalty. */
  lemma PenaltyMeansSplit(red: seq<real>, y: seq<real>)
    requires |red| == |y| && |y| > 0
    ensures Mean(ContinuousTerms(red, y)).value == Mean(GoodPenalties(red, y)).value + Mean(PoorPenalties(red, y)).value
  {
    var g, p := GoodPenalties(red, y), PoorPenalties(red, y);
    forall i | 0 <= i < |y| ensures PointwiseSum(g, p)[i] == ContinuousTerms(red, y)[i] {
    }
    assert PointwiseSum(g, p) == ContinuousTerms(red, y);
    SumPointwise(g, p);
    DivAdd(Sum(g), Sum(p), |y| as real);
  }

  lemma DivAdd(a: real, b: real, n: real)
    requires n > 0.0
    ensures (a + b) / n == a / n + b / n
  {
  }

  /** The metrics agree with the loss object: the total is the value
      `ContinuousHSPLoss` returns, the total is base + size penalty, the
      size penalty is size_factor·R² or 0, and the base loss is the sum of
      the mean good and mean poor penalties. */
  lemma EvaluationMeaning(radius: real, red: seq<real>, y: seq<real>, sizeFactor: Option<real>)
    requires |red| == |y| && |y| > 0
    ensures var e := EvaluateWithLoss(radius, red, y, sizeFactor).value;
      && e.totalLoss == ContinuousLossValue(sizeFactor, radius, red, y).value
      && e.totalLoss == e.baseLoss + e.sizePenalty
      && e.baseLoss == ContinuousLossValue(None, radius, red, y).value
      && (sizeFactor.Some? ==> e.sizePenalty == sizeFactor.value * (radius * radius))
      && (sizeFactor.None? ==> e.sizePenalty == 0.0 && e.totalLoss == e.baseLoss)
      && e.baseLoss == e.goodPenaltyMean + e.poorPenaltyMean
  {
    PenaltyMeansSplit(red, y);
    if sizeFactor.Some? {
      assert Mul(sizeFactor.value, Sq(radius)) == sizeFactor.value * (radius * radius);
    }
  }

  // ------------------------------------------------- compare_train_test_loss

  datatype Comparison = Comparison(
    trainLoss: real,
    testLoss: real,
    lossDiff: real,
    lossRatio: XReal,
    trainMetrics: Evaluation,
    testMetrics: Evaluation)

  /** `compare_train_test_loss`: both losses are base losses, evaluated at
      the same fitted parameters. */
  function CompareTrainTestLoss(radius: real, redTrain: seq<real>, yTrain: seq<real>,
                                redTest: seq<real>, yTest: seq<real>, sizeFactor: Option<real>): (r: Option<Comparison>)
    requires |redTrain| == |yTrain| && |redTest| == |yTest|
    ensures r.Some? <==> |yTrain| > 0 && |yTest| > 0
  {
    var tr := EvaluateWithLoss(radius, redTrain, yTrain, sizeFactor);
    var te := EvaluateWithLoss(radius, redTest, yTest, sizeFactor);
    if tr.None? || te.None? then None
    else
      var a, b := tr.value.baseLoss, te.value.baseLoss;
      Some(Comparison(a, b, b - a, Ratio(b, a), tr.value, te.value))
  }

  /** `test / train`, infinite when the train loss is not positive. */
  function Ratio(test: real, train: real): XReal
  {
    if train > 0.0 then Fin(test / train) else PosInf
  }

  lemma RatioMeaning(test: real, train: real)
    ensures Ratio(test, train) == PosInf <==> train <= 0.0
    ensures train > 0.0 ==> Ratio(test, train).Fin? && Mul(Ratio(test, train).v, train) == test
                                && (test - train > 0.0 <==> Ratio(test, train).v > 1.0)
  {
    if train > 0.0 {
      var q := test / train;
      assert Mul(q, train) == test;
      if q > 1.0 {
        MulLtLeft(1.0, q, train);
        assert Mul(train, q) == Mul(q, train);
      } else {
        MulLeRight(q, 1.0, train);
      }
    }
  }

  /** The base loss does not depend on the size factor. */
  lemma BaseLossIgnoresSizeFactor(radius: real, red: seq<real>, y: seq<real>, sf1: Option<real>, sf2: Option<real>)
    requires |red| == |y| > 0
    ensures EvaluateWithLoss(radius, red, y, sf1).value.baseLoss == EvaluateWithLoss(radius, red, y, sf2).value.baseLoss
  {
  }

  /** The difference is test − train; the ratio is infinite exactly when
      the train loss is not positive, and otherwise multiplies the train
      loss back to the test loss; a positive difference (overfitting) is a
      ratio above 1. */
  lemma ComparisonMeaning(radius: real, redTrain: seq<real>, yTrain: seq<real>,
                          redTest: seq<real>, yTest: seq<real>, sizeFactor: Option<real>)
    requires |redTrain| == |yTrain| > 0 && |redTest| == |yTest| > 0
    ensures var c := CompareTrainTestLoss(radius, redTrain, yTrain, redTest, yTest, sizeFactor).value;
      && c.lossDiff == c.testLoss - c.trainLoss
      && (c.lossRatio == PosInf <==> c.trainLoss <= 0.0)
      && (c.trainLoss > 0.0 ==> c.lossRatio.Fin? && Mul(c.lossRatio.v, c.trainLoss) == c.testLoss
                                && (c.lossDiff > 0.0 <==> c.lossRatio.v > 1.0))
  {
    var c := CompareTrainTestLoss(radius, redTrain, yTrain, redTest, yTest, sizeFactor).value;
    RatioMeaning(c.testLoss, c.trainLoss);
  }

  /** The size factor has no influence on the compared losses nor on their
      ratio. */
  lemma ComparisonIgnoresSizeFactor(radius: real, redTrain: seq<real>, yTrain: seq<real>,
                                    redTest: seq<real>, yTest: seq<real>, sf1: Option<real>, sf2: Option<real>)
    requires |redTrain| == |yTrain| > 0 && |redTest| == |yTest| > 0
    ensures var c1 := CompareTrainTestLoss(radius, redTrain, yTrain, redTest, yTest, sf1).value;
      var c2 := CompareTrainTestLoss(radius, redTrain, yTrain, redTest, yTest, sf2).value;
      c1.trainLoss == c2.trainLoss && c1.testLoss == c2.testLoss && c1.lossRatio == c2.lossRatio
  {
    BaseLossIgnoresSizeFactor(radius, redTrain, yTrain, sf1, sf2);
    BaseLossIgnoresSizeFactor(radius, redTest, yTest, sf1, sf2);
  }

  // ------------------------------------------------ analyze_loss_components

  /** The categories examined, in order: good (1.0), partial (0.5), poor (0.0). */
  const Categories: seq<real> := [1.0, 0.5, 0.0]

  function CategoryName(c: real): string
  {
    if c == 1.0 then "good" else if c == 0.5 then "partial" else "poor"
  }

  /** Number of samples whose score equals `c` exactly. */
  function CountWhere(y: seq<real>, c: real): (n: nat)
    ensures n <= |y|
  {
    if |y| == 0 then 0 else CountWhere(y[..|y| - 1], c) + (if y[|y| - 1] == c then 1 else 0)
  }

  /** Sum of `v[i]` over the samples whose score equals `c` exactly. */
  function SumWhere(v: seq<real>, y: seq<real>, c: real): real
    requires |v| == |y|
  {
    if |y| == 0 then 0.0
    else SumWhere(v[..|y| - 1], y[..|y| - 1], c) + (if y[|y| - 1] == c then v[|y| - 1] else 0.0)
  }

  /** `v[mask]`: the values of the samples whose score equals `c`, in
      order. */
  function ValuesWhere(v: seq<real>, y: seq<real>, c: real): (r: seq<real>)
    requires |v| == |y|
    ensures |r| == CountWhere(y, c)
  {
    if |y| == 0 then []
    else ValuesWhere(v[..|y| - 1], y[..|y| - 1], c) + (if y[|y| - 1] == c then [v[|y| - 1]] else [])
  }

  /** The masked sum is the sum of the masked values. */
  lemma {:induction false} ValuesWhereSum(v: seq<real>, y: seq<real>, c: real)
    requires |v| == |y|
    ensures Sum(ValuesWhere(v, y, c)) == SumWhere(v, y, c)
  {
    if |y| > 0 {
      var n := |y| - 1;
      ValuesWhereSum(v[..n], y[..n], c);
      if y[n] == c {
        SumAppend(ValuesWhere(v[..n], y[..n], c), v[n]);
      } else {
        var w := ValuesWhere(v[..n], y[..n], c);
        assert ValuesWhere(v, y, c) == w + [];
        assert w + [] == w;
      }
    }
  }

  /** The population variance is non-negative, and zero exactly when every
      value equals the mean. */
  lemma VarianceMeaning(s: seq<real>)
    requires |s| > 0
    ensures Variance(s) >= 0.0
    ensures Variance(s) == 0.0 <==> forall i :: 0 <= i < |s| ==> s[i] == Mean(s).value
  {
    var mu := Mean(s).value;
    var d := seq(|s|, i requires 0 <= i < |s| => Sq(s[i] - mu));
    forall i | 0 <= i < |s| ensures d[i] >= 0.0 && (d[i] == 0.0 <==> s[i] == mu) {
      SqZeroIff(s[i] - mu);
    }
    assert Variance(s) == Mean(d).value;
    MeanNonnegZero(d);
    assert AllZero(d) <==> forall i :: 0 <= i < |s| ==> s[i] == mu;
  }

  datatype CategoryStats = CategoryStats(
    category: real,
    name: string,
    nSamples: nat,
    meanLoss: real,
    totalLoss: real,
    meanRed: real,
    stdRed: real,
    contributionPct: Option<real>)

  /** `sum(loss[mask]) / sum(loss) * 100`; None is the NaN of 0 / 0. */
  function Contribution(t: seq<real>, y: seq<real>, c: real): Option<real>
    requires |t| == |y|
  {
    if Sum(t) == 0.0 then None else Some(SumWhere(t, y, c) / Sum(t) * 100.0)
  }

  /** One category's entry; `sqrt` stands for the square root taken by
      `np.std`. */
  function StatsOf(t: seq<real>, red: seq<real>, y: seq<real>, c: real, sqrt: real -> real): CategoryStats
    requires |t| == |y| && |red| == |y| && CountWhere(y, c) > 0
  {
    var n := CountWhere(y, c);
    CategoryStats(c, CategoryName(c), n, SumWhere(t, y, c) / (n as real), SumWhere(t, y, c),
                  SumWhere(red, y, c) / (n as real), sqrt(Variance(ValuesWhere(red, y, c))), Contribution(t, y, c))
  }

  /** An entry's figures are those of the masked arrays: the sample count,
      `np.mean` of the masked losses and RED values, `np.sum` of the masked
      losses, and `np.std` (the root of the population variance, which is
      non-negative) of the masked RED values. */
  lemma StatsMeaning(t: seq<real>, red: seq<real>, y: seq<real>, c: real, sqrt: real -> real)
    requires |t| == |y| && |red| == |y| && CountWhere(y, c) > 0
    ensures var e := StatsOf(t, red, y, c, sqrt);
      && e.nSamples == |ValuesWhere(t, y, c)|
      && e.meanLoss == Mean(ValuesWhere(t, y, c)).value
      && e.totalLoss == Sum(ValuesWhere(t, y, c))
      && e.meanRed == Mean(ValuesWhere(red, y, c)).value
      && e.stdRed == sqrt(Variance(ValuesWhere(red, y, c))) && Variance(ValuesWhere(red, y, c)) >= 0.0
  {
    ValuesWhereSum(t, y, c);
    ValuesWhereSum(red, y, c);
    VarianceMeaning(ValuesWhere(red, y, c));
  }

  /** The entries for the first `k` categories, skipping empty ones. */
  function ByCategory(t: seq<real>, red: seq<real>, y: seq<real>, k: nat, sqrt: real -> real): seq<CategoryStats>
    requires |t| == |y| && |red| == |y| && k <= |Categories|
  {
    if k == 0 then []
    else
      var c := Categories[k - 1];
      ByCategory(t, red, y, k - 1, sqrt) + (if CountWhere(y, c) == 0 then [] else [StatsOf(t, red, y, c, sqrt)])
  }

  datatype Analysis = Analysis(totalLoss: real, baseLoss: real, sizePenalty: real, byCategory: seq<CategoryStats>)

  /** `analyze_loss_components`: the overall figures, then one entry per
      non-empty category, filled in a loop over 1.0, 0.5, 0.0. */
  method AnalyzeLossComponents(radius: real, red: seq<real>, y: seq<real>, sizeFactor: Option<real>, sqrt: real -> real)
    returns (r: Option<Analysis>)
    requires |red| == |y|
    ensures r.Some? <==> |y| > 0
    ensures r.Some? ==> var e := EvaluateWithLoss(radius, red, y, sizeFactor).value;
      r.value == Analysis(e.totalLoss, e.baseLoss, e.sizePenalty, ByCategory(e.perSampleLoss, red, y, 3, sqrt))
  {
    var m := EvaluateWithLoss(radius, red, y, sizeFactor);
    if m.None? {
      return None;
    }
    var t := m.value.perSampleLoss;
    var cats: seq<CategoryStats> := [];
    for k := 0 to 3
      invariant cats == ByCategory(t, red, y, k, sqrt)
    {
      var c := Categories[k];
      var n := CountWhere(y, c);
      assert ByCategory(t, red, y, k + 1, sqrt)
        == ByCategory(t, red, y, k, sqrt) + (if n == 0 then [] else [StatsOf(t, red, y, c, sqrt)]);
      if n == 0 {
        assert ByCategory(t, red, y, k + 1, sqrt) == cats + [];
        continue;
      }
      cats := cats + [StatsOf(t, red, y, c, sqrt)];
    }
    r := Some(Analysis(m.value.totalLoss, m.value.baseLoss, m.value.sizePenalty, cats));
  }

  /** A category is reported exactly when it has samples: every entry is
      one of the three categories with at least one sample, and every
      category with samples has its entry. */
  lemma {:induction false} ByCategoryOmitsEmpty(t: seq<real>, red: seq<real>, y: seq<real>, k: nat, sqrt: real -> real)
    requires |t| == |y| && |red| == |y| && k <= |Categories|
    ensures forall e :: e in ByCategory(t, red, y, k, sqrt) ==>
      e.category in Categories[..k] && e.nSamples == CountWhere(y, e.category) > 0 && e.name == CategoryName(e.category)
    ensures forall j :: 0 <= j < k && CountWhere(y, Categories[j]) > 0 ==>
      StatsOf(t, red, y, Categories[j], sqrt) in ByCategory(t, red, y, k, sqrt)
  {
    if k > 0 {
      ByCategoryOmitsEmpty(t, red, y, k - 1, sqrt);
      assert Categories[..k] == Categories[..k - 1] + [Categories[k - 1]];
    }
  }

  /** A category without samples contributes nothing. */
  lemma {:induction false} SumWhereEmpty(v: seq<real>, y: seq<real>, c: real)
    requires |v| == |y| && CountWhere(y, c) == 0
    ensures SumWhere(v, y, c) == 0.0
  {
    if |y| > 0 {
      SumWhereEmpty(v[..|y| - 1], y[..|y| - 1], c);
    }
  }

  /** When every score is 1.0, 0.5 or 0.0, the three categories split the
      samples and the loss: their counts add up to the number of samples
      and their sums to the total. */
  lemma {:induction false} CategoriesPartition(v: seq<real>, y: seq<real>)
    requires |v| == |y|
    requires forall i :: 0 <= i < |y| ==> y[i] in Categories
    ensures CountWhere(y, 1.0) + CountWhere(y, 0.5) + CountWhere(y, 0.0) == |y|
    ensures SumWhere(v, y, 1.0) + SumWhere(v, y, 0.5) + SumWhere(v, y, 0.0) == Sum(v)
  {
    if |y| > 0 {
      var n := |y| - 1;
      assert y[n] in Categories;
      CategoriesPartition(v[..n], y[..n]);
      assert v[..n] == v[..|v| - 1];
    }
  }

  /** For scores in {1.0, 0.5, 0.0} and a positive total loss the three
      contribution percentages add up to 100, an empty category giving 0. */
  lemma ContributionsSumTo100(t: seq<real>, y: seq<real>)
    requires |t| == |y| && Sum(t) > 0.0
    requires forall i :: 0 <= i < |y| ==> y[i] in Categories
    ensures Contribution(t, y, 1.0).value + Contribution(t, y, 0.5).value + Contribution(t, y, 0.0).value == 100.0
    ensures forall c :: CountWhere(y, c) == 0 ==> Contribution(t, y, c) == Some(0.0)
  {
    CategoriesPartition(t, y);
    var s := Sum(t);
    var a, b, d := SumWhere(t, y, 1.0), SumWhere(t, y, 0.5), SumWhere(t, y, 0.0);
    assert Contribution(t, y, 1.0) == Some(a / s * 100.0);
    assert Contribution(t, y, 0.5) == Some(b / s * 100.0);
    assert Contribution(t, y, 0.0) == Some(d / s * 100.0);
    DivSum3(a, b, d, s);
    forall c | CountWhere(y, c) == 0 ensures Contribution(t, y, c) == Some(0.0) {
      ContributionEmpty(t, y, c);
    }
  }

  lemma ContributionEmpty(t: seq<real>, y: seq<real>, c: real)
    requires |t| == |y| && Sum(t) > 0.0 && CountWhere(y, c) == 0
    ensures Contribution(t, y, c) == Some(0.0)
  {
    SumWhereEmpty(t, y, c);
  }

  lemma DivSum3(a: real, b: real, d: real, s: real)
    requires s > 0.0 && a + b + d == s
    ensures a / s * 100.0 + b / s * 100.0 + d / s * 100.0 == 100.0
  {
    assert a / s + b / s + d / s == (a + b + d) / s == 1.0;
  }

  // ---------------------------------------------- find_problematic_solvents

  /** Default loss threshold above which a solvent is problematic. */
  const DefaultProblemThreshold: real := 0.1

  datatype Problem = Problem(chemical: string, y: real, red: real, loss: real, coords: Point)

  /** The rows of the samples whose loss exceeds the threshold, in input order. */
  function ProblemRows(names: seq<string>, coords: seq<Point>, red: seq<real>, y: seq<real>, threshold: real): (rows: seq<Problem>)
    requires |names| == |y| && |coords| == |y| && |red| == |y|
    ensures forall p :: p in rows ==> p.loss > threshold && p.loss == ContinuousTerm(p.red, p.y)
    ensures forall i :: 0 <= i < |y| && ContinuousTerm(red[i], y[i]) > threshold ==>
      Problem(names[i], y[i], red[i], ContinuousTerm(red[i], y[i]), coords[i]) in rows
    ensures |rows| == 0 <==> forall i :: 0 <= i < |y| ==> ContinuousTerm(red[i], y[i]) <= threshold
  {
    if |y| == 0 then []
    else
      var n := |y| - 1;
      var l := ContinuousTerm(red[n], y[n]);
      var init := ProblemRows(names[..n], coords[..n], red[..n], y[..n], threshold);
      assert forall i :: 0 <= i < n ==>
        names[..n][i] == names[i] && coords[..n][i] == coords[i] && red[..n][i] == red[i] && y[..n][i] == y[i];
      init + (if l > threshold then [Problem(names[n], y[n], red[n], l, coords[n])] else [])
  }

  /** `find_problematic_solvents`: None when no per-sample loss exceeds the
      threshold, otherwise those rows sorted by descending loss. */
  function FindProblematicSolvents(names: seq<string>, coords: seq<Point>, red: seq<real>, y: seq<real>, threshold: real)
    : (r: Option<seq<Problem>>)
    requires |names| == |y| && |coords| == |y| && |red| == |y|
    ensures r.None? <==> forall i :: 0 <= i < |y| ==> ContinuousTerm(red[i], y[i]) <= threshold
    ensures r.Some? ==> forall i, j :: 0 <= i < j < |r.value| ==> r.value[i].loss >= r.value[j].loss
    ensures r.Some? ==> multiset(r.value) == multiset(ProblemRows(names, coords, red, y, threshold))
  {
    var rows := ProblemRows(names, coords, red, y, threshold);
    if |rows| == 0 then None
    else
      var sorted := SortBy(rows, (p: Problem) => -p.loss);
      assert forall i, j :: 0 <= i < j < |sorted| ==> -sorted[i].loss <= -sorted[j].loss;
      Some(sorted)
  }

  /** Every reported solvent has a loss above the threshold, and every
      solvent with a loss above the threshold is reported. */
  lemma ProblematicExactly(names: seq<string>, coords: seq<Point>, red: seq<real>, y: seq<real>, threshold: real)
    requires |names| == |y| && |coords| == |y| && |red| == |y|
    requires FindProblematicSolvents(names, coords, red, y, threshold).Some?
    ensures var r := FindProblematicSolvents(names, coords, red, y, threshold).value;
      && (forall p :: p in r ==> p.loss > threshold && p.loss == ContinuousTerm(p.red, p.y))
      && (forall i :: 0 <= i < |y| && ContinuousTerm(red[i], y[i]) > threshold ==>
            Problem(names[i], y[i], red[i], ContinuousTerm(red[i], y[i]), coords[i]) in r)
  {
    var rows := ProblemRows(names, coords, red, y, threshold);
    var r := FindProblematicSolvents(names, coords, red, y, threshold).value;
    forall p ensures p in r <==> p in rows {
      assert p in r <==> p in multiset(r);
      assert p in rows <==> p in multiset(rows);
    }
  }

  // --------------------------------------------- loss_based_model_selection

  /** A candidate model, given by its name and the RED values its fitted
      parameters give on the validation data. */
  datatype Candidate = Candidate(name: string, red: seq<real>)

  datatype Selection = Selection(bestModel: string, bestLoss: real, allLosses: map<string, real>, ranking: seq<(string, real)>)

  predicate DistinctNames(models: seq<Candidate>)
  {
    forall i, j :: 0 <= i < j < |models| ==> models[i].name != models[j].name
  }

  predicate WellSized(models: seq<Candidate>, y: seq<real>)
  {
    forall i :: 0 <= i < |models| ==> |models[i].red| == |y|
  }

  /** The base loss of a candidate on non-empty validation data. */
  function BaseLoss(m: Candidate, y: seq<real>): real
    requires |m.red| == |y| && |y| > 0
  {
    Mean(ContinuousTerms(m.red, y)).value
  }

  /** (name, loss) pairs in dictionary (input) order. */
  function LossItems(models: seq<Candidate>, y: seq<real>): (items: seq<(string, real)>)
    requires WellSized(models, y) && |y| > 0
    ensures |items| == |models|
    ensures forall i :: 0 <= i < |models| ==> items[i] == (models[i].name, BaseLoss(models[i], y))
  {
    seq(|models|, i requires 0 <= i < |models| => (models[i].name, BaseLoss(models[i], y)))
  }

  /** The `losses` dictionary after inserting the given pairs in order. */
  function LossMap(items: seq<(string, real)>): map<string, real>
  {
    if |items| == 0 then map[] else LossMap(items[..|items| - 1])[items[|items| - 1].0 := items[|items| - 1].1]
  }

  /** Sort key of a (name, loss) pair: its loss. */
  function LossKey(p: (string, real)): real
  {
    p.1
  }

  function SelectionOf(models: seq<Candidate>, y: seq<real>): Result<Selection>
    requires WellSized(models, y) && |y| > 0
  {
    var items := LossItems(models, y);
    var ranking := SortBy(items, LossKey);
    if |ranking| == 0 then Err("list index out of range")
    else Ok(Selection(ranking[0].0, ranking[0].1, LossMap(items), ranking))
  }

  /** `loss_based_model_selection`: the losses dictionary is filled in a
      loop; the ranking sorts its items by ascending loss and the best
      model is the first. An empty dictionary has no first entry. */
  method LossBasedModelSelection(models: seq<Candidate>, y: seq<real>) returns (r: Result<Selection>)
    requires WellSized(models, y) && |y| > 0
    ensures r == SelectionOf(models, y)
  {
    var losses: map<string, real> := map[];
    var items: seq<(string, real)> := [];
    for i := 0 to |models|
      invariant items == LossItems(models, y)[..i]
      invariant losses == LossMap(items)
    {
      var m := models[i];
      var loss := Mean(ContinuousTerms(m.red, y)).value;
      assert (items + [(m.name, loss)])[..i] == items;
      losses := losses[m.name := loss];
      items := items + [(m.name, loss)];
    }
    assert items == LossItems(models, y);
    var ranking := SortBy(items, LossKey);
    if |ranking| == 0 {
      return Err("list index out of range");
    }
    r := Ok(Selection(ranking[0].0, ranking[0].1, losses, ranking));
  }

  /** With distinct names, the dictionary maps every name to its loss. */
  lemma {:induction false} LossMapContents(items: seq<(string, real)>)
    requires forall i, j :: 0 <= i < j < |items| ==> items[i].0 != items[j].0
    ensures forall i :: 0 <= i < |items| ==> items[i].0 in LossMap(items) && LossMap(items)[items[i].0] == items[i].1
    ensures forall k :: k in LossMap(items) ==> exists i :: 0 <= i < |items| && items[i].0 == k
  {
    if |items| > 0 {
      var n := |items| - 1;
      LossMapContents(items[..n]);
      forall k | k in LossMap(items) ensures exists i :: 0 <= i < |items| && items[i].0 == k {
        if k != items[n].0 {
          var i :| 0 <= i < n && items[..n][i].0 == k;
          assert items[i].0 == k;
        }
      }
    }
  }

  /** The ranking holds every (name, loss) pair in ascending order of loss,
      and its head has the least loss of all candidates. */
  lemma RankingMeaning(items: seq<(string, real)>)
    requires |items| > 0
    ensures var ranking := SortBy(items, LossKey);
      && multiset(ranking) == multiset(items)
      && (forall i, j :: 0 <= i < j < |ranking| ==> ranking[i].1 <= ranking[j].1)
      && (forall i :: 0 <= i < |items| ==> ranking[0].1 <= items[i].1)
  {
    var key := LossKey;
    var ranking := SortBy(items, key);
    SortBySameElements(items, key);
    forall i | 0 <= i < |items| ensures ranking[0].1 <= items[i].1 {
      assert items[i] in ranking;
      var j :| 0 <= j < |ranking| && ranking[j] == items[i];
      assert j == 0 || key(ranking[0]) <= key(ranking[j]);
    }
  }

  /** The keys of the dictionary are exactly the candidates' names. */
  lemma LossMapKeys(models: seq<Candidate>, y: seq<real>)
    requires WellSized(models, y) && |y| > 0 && DistinctNames(models)
    ensures forall k :: k in LossMap(LossItems(models, y)) <==> exists i :: 0 <= i < |models| && models[i].name == k
    ensures forall i :: 0 <= i < |models| ==>
      models[i].name in LossMap(LossItems(models, y)) && LossMap(LossItems(models, y))[models[i].name] == BaseLoss(models[i], y)
  {
    var items := LossItems(models, y);
    LossMapContents(items);
  }

  /** Selection fails exactly when there are no models; otherwise the
      ranking holds every (name, loss) pair in ascending order of loss, the
      best model heads it with the least loss, and the dictionary maps each
      name to its loss. */
  lemma SelectionMeaning(models: seq<Candidate>, y: seq<real>)
    requires WellSized(models, y) && |y| > 0 && DistinctNames(models)
    ensures SelectionOf(models, y).Ok? <==> |models| > 0
    ensures SelectionOf(models, y).Ok? ==> var s := SelectionOf(models, y).value;
      && multiset(s.ranking) == multiset(LossItems(models, y))
      && (forall i, j :: 0 <= i < j < |s.ranking| ==> s.ranking[i].1 <= s.ranking[j].1)
      && s.ranking[0] == (s.bestModel, s.bestLoss)
      && (forall i :: 0 <= i < |models| ==> s.bestLoss <= BaseLoss(models[i], y))
      && (forall i :: 0 <= i < |models| ==>
            models[i].name in s.allLosses && s.allLosses[models[i].name] == BaseLoss(models[i], y))
      && (forall k :: k in s.allLosses <==> exists i :: 0 <= i < |models| && models[i].name == k)
  {
    if |models| > 0 {
      var items := LossItems(models, y);
      RankingMeaning(items);
      LossMapKeys(models, y);
      var s := SelectionOf(models, y).value;
      assert s.ranking == SortBy(items, LossKey) && s.allLosses == LossMap(items);
      forall i | 0 <= i < |models| ensures s.bestLoss <= BaseLoss(models[i], y) {
        assert items[i].1 == BaseLoss(models[i], y);
      }
    }
  }

  // ----------------------------------------------- compute_loss_statistics

  function SeqMin(s: seq<real>): (m: real)
    requires |s| > 0
    ensures m in s && forall i :: 0 <= i < |s| ==> m <= s[i]
  {
    if |s| == 1 then s[0] else Min(SeqMin(s[..|s| - 1]), s[|s| - 1])
  }

  function SeqMax(s: seq<real>): (m: real)
    requires |s| > 0
    ensures m in s && forall i :: 0 <= i < |s| ==> s[i] <= m
  {
    if |s| == 1 then s[0] else Max(SeqMax(s[..|s| - 1]), s[|s| - 1])
  }

  datatype LossStatistics = LossStatistics(mean: real, min: real, max: real, cv: XReal, n: nat)

  /** Population variance (`np.std` squared, ddof = 0). */
  function Variance(s: seq<real>): real
    requires |s| > 0
  {
    var mu := Mean(s).value;
    Mean(seq(|s|, i requires 0 <= i < |s| => Sq(s[i] - mu))).value
  }

  /** The mean/min/max/cv/n part of `compute_loss_statistics`; `sqrt` stands
      for the square root taken by `np.std`. An empty list makes `np.min`
      raise. */
  function ComputeLossStatistics(values: seq<real>, sqrt: real -> real): (r: Result<LossStatistics>)
    ensures r.Err? <==> |values| == 0
  {
    if |values| == 0 then Err("zero-size array to reduction operation minimum which has no identity")
    else
      var mu := Mean(values).value;
      Ok(LossStatistics(mu, SeqMin(values), SeqMax(values),
                        if mu > 0.0 then Fin(sqrt(Variance(values)) / mu) else PosInf, |values|))
  }

  /** min ≤ mean ≤ max, min and max are attained values, n counts the
      values, and cv is infinite exactly when the mean is not positive. */
  lemma LossStatisticsMeaning(values: seq<real>, sqrt: real -> real)
    requires |values| > 0
    ensures var st := ComputeLossStatistics(values, sqrt).value;
      && st.min <= st.mean <= st.max
      && st.min in values && st.max in values
      && (forall i :: 0 <= i < |values| ==> st.min <= values[i] <= st.max)
      && st.n == |values|
      && (st.cv == PosInf <==> st.mean <= 0.0)
  {
    MeanBetween(values, SeqMin(values), SeqMax(values));
  }
}
