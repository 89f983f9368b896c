/**
 * hansentest/alternative_loss.py: six further loss functions of RED and the
 * solubility score y. All of them are whole-array expressions; each adds
 * size_factor·R² whenever a size factor is given. `exp` and `logCosh`
 * stand for `np.exp` and `np.log(np.cosh(·))`, parameters of the model.
 */
module AlternativeLoss {

  import opened Common

  datatype AltLoss =
    | Exponential(sizeFactor: Option<real>, penaltyStrength: real)
    | AdaptiveWeight(sizeFactor: Option<real>)
    | Huber(sizeFactor: Option<real>, delta: real)
    | LogCosh(sizeFactor: Option<real>)
    | Quantile(sizeFactor: Option<real>, quantile: real)
    | Hinge(sizeFactor: Option<real>, margin: real)

  /** Constructor defaults. */
  const DefaultPenaltyStrength: real := 2.0
  const DefaultDelta: real := 0.5
  const DefaultQuantile: real := 0.5
  const DefaultMargin: real := 0.1

  /** The ideal RED of the adaptive, Huber and log-cosh losses: the
      `y == 0.5` rule overrides the `y >= 0.5` rule. */
  function IdealRed(y: real): real
  {
    if y == 0.5 then 1.0 else if y >= 0.5 then 0.5 else 1.5
  }

  function ExponentialTerm(red: real, y: real, s: real, exp: real -> real): real
  {
    y * (exp(s * Max0(red - 1.0)) - 1.0) + (1.0 - y) * (exp(s * Max0(1.0 - red)) - 1.0)
  }

  /** Weight of the adaptive loss: grows with the size of the violation. */
  function AdaptiveWeightOf(red: real, y: real): real
  {
    if y >= 0.5 then 1.0 + 2.0 * Max0(red - 1.0) else 1.0 + 2.0 * Max0(1.0 - red)
  }

  function AdaptiveTerm(red: real, y: real): real
  {
    Mul(AdaptiveWeightOf(red, y), Sq(red - IdealRed(y)))
  }

  /** The Huber function of an absolute error e with threshold delta. */
  function HuberOf(e: real, delta: real): real
  {
    if e <= delta then 0.5 * Sq(e) else Mul(delta, e - 0.5 * delta)
  }

  function HuberTerm(red: real, y: real, delta: real): real
  {
    HuberOf(Abs(red - IdealRed(y)), delta)
  }

  /** The asymmetric (pinball) penalty of an error with quantile q. */
  function Pinball(err: real, q: real): real
  {
    if err > 0.0 then Mul(q, err) else Mul(1.0 - q, -err)
  }

  function QuantileTerm(red: real, y: real, q: real): real
  {
    Mul(y, Pinball(red - 1.0, q)) + Mul(1.0 - y, Pinball(1.0 - red, q))
  }

  function HingeTerm(red: real, y: real, m: real): real
  {
    Mul(y, Max0(red - (1.0 - m))) + Mul(1.0 - y, Max0((1.0 + m) - red))
  }

  function Term(f: AltLoss, red: real, y: real, exp: real -> real, logCosh: real -> real): real
  {
    match f
    case Exponential(_, s) => ExponentialTerm(red, y, s, exp)
    case AdaptiveWeight(_) => AdaptiveTerm(red, y)
    case Huber(_, delta) => HuberTerm(red, y, delta)
    case LogCosh(_) => logCosh(red - IdealRed(y))
    case Quantile(_, q) => QuantileTerm(red, y, q)
    case Hinge(_, m) => HingeTerm(red, y, m)
  }

  function Terms(f: AltLoss, red: seq<real>, y: seq<real>, exp: real -> real, logCosh: real -> real): (t: seq<real>)
    requires |red| == |y|
    ensures |t| == |y|
    ensures forall i :: 0 <= i < |y| ==> t[i] == Term(f, red[i], y[i], exp, logCosh)
  {
    seq(|y|, i requires 0 <= i < |y| => Term(f, red[i], y[i], exp, logCosh))
  }

  /** `loss(HSP, X, y)`: the mean term, plus size_factor·R² whenever a size
      factor is given; None is the NaN of an empty mean. */
  function LossValue(f: AltLoss, radius: real, red: seq<real>, y: seq<real>, exp: real -> real, logCosh: real -> real)
    : (r: Option<real>)
    requires |red| == |y|
    ensures r.None? <==> |y| == 0
    ensures f.sizeFactor.None? || f.sizeFactor == Some(0.0) ==> r == Mean(Terms(f, red, y, exp, logCosh))
  {
    match Mean(Terms(f, red, y, exp, logCosh))
    case None => None
    case Some(base) => Some(if f.sizeFactor.Some? then base + Mul(f.sizeFactor.value, Sq(radius)) else base)
  }

  // ------------------------------------------------------------ properties

  /** The ideal RED is 1.0 for y = 0.5, 0.5 for the other scores ≥ 0.5 and
      1.5 below 0.5. */
  lemma IdealRedValues(y: real)
    ensures y == 0.5 ==> IdealRed(y) == 1.0
    ensures y > 0.5 ==> IdealRed(y) == 0.5
    ensures y < 0.5 ==> IdealRed(y) == 1.5
  {
  }

  /** The adaptive weights are at least 1, so each adaptive term is
      non-negative, and zero exactly when RED is the ideal RED. */
  lemma AdaptiveTermMeaning(red: real, y: real)
    ensures AdaptiveWeightOf(red, y) >= 1.0
    ensures AdaptiveTerm(red, y) >= 0.0
    ensures AdaptiveTerm(red, y) == 0.0 <==> red == IdealRed(y)
  {
    var w, e := AdaptiveWeightOf(red, y), Sq(red - IdealRed(y));
    SqZeroIff(red - IdealRed(y));
    MulNonneg(w, e);
    if e > 0.0 { MulPos(w, e); } else { MulZeroLeft(e, w); assert Mul(e, w) == Mul(w, e); }
  }

  /** For delta ≥ 0 the Huber function of an error e ≥ 0 is non-negative,
      and its two pieces agree at e = delta. */
  lemma HuberMeaning(e: real, delta: real)
    requires e >= 0.0 && delta >= 0.0
    ensures HuberOf(e, delta) >= 0.0
    ensures 0.5 * Sq(delta) == Mul(delta, delta - 0.5 * delta)
  {
    SqNonneg(e);
    if e > delta {
      MulNonneg(delta, e - 0.5 * delta);
    }
    assert Mul(delta, delta - 0.5 * delta) == 0.5 * Mul(delta, delta);
  }

  /** For q and y in [0, 1] the quantile term is non-negative; a good
      solvent strictly inside the sphere still pays (1 − q)·(1 − RED). */
  lemma QuantileMeaning(red: real, y: real, q: real)
    requires 0.0 <= q <= 1.0 && 0.0 <= y <= 1.0
    ensures QuantileTerm(red, y, q) >= 0.0
    ensures y == 1.0 && red < 1.0 ==> QuantileTerm(red, y, q) == Mul(1.0 - q, 1.0 - red)
  {
    var g, p := Pinball(red - 1.0, q), Pinball(1.0 - red, q);
    if red - 1.0 > 0.0 { MulNonneg(q, red - 1.0); } else { MulNonneg(1.0 - q, -(red - 1.0)); }
    if 1.0 - red > 0.0 { MulNonneg(q, 1.0 - red); } else { MulNonneg(1.0 - q, -(1.0 - red)); }
    MulNonneg(y, g);
    MulNonneg(1.0 - y, p);
    if y == 1.0 {
      MulZeroLeft(1.0 - y, p);
      assert Mul(1.0, g) == g;
    }
  }

  /** Every solvent clears the margin its score asks for: scores above 0
      have RED ≤ 1 − margin, scores below 1 have RED ≥ 1 + margin. */
  predicate HingePerfect(red: seq<real>, y: seq<real>, m: real)
    requires |red| == |y|
  {
    forall i :: 0 <= i < |y| ==> (y[i] > 0.0 ==> red[i] <= 1.0 - m) && (y[i] < 1.0 ==> red[i] >= 1.0 + m)
  }

  lemma HingeTermMeaning(red: real, y: real, m: real)
    requires 0.0 <= y <= 1.0
    ensures HingeTerm(red, y, m) >= 0.0
    ensures HingeTerm(red, y, m) == 0.0 <==> (y > 0.0 ==> red <= 1.0 - m) && (y < 1.0 ==> red >= 1.0 + m)
  {
    var a, b := Max0(red - (1.0 - m)), Max0((1.0 + m) - red);
    MulNonneg(y, a);
    MulNonneg(1.0 - y, b);
    if y > 0.0 && a > 0.0 { MulPos(y, a); }
    if y < 1.0 && b > 0.0 { MulPos(1.0 - y, b); }
    if y == 0.0 { MulZeroLeft(y, a); }
    if y == 1.0 { MulZeroLeft(1.0 - y, b); }
    if a == 0.0 { MulZeroLeft(a, y); assert Mul(a, y) == Mul(y, a); }
    if b == 0.0 { MulZeroLeft(b, 1.0 - y); assert Mul(b, 1.0 - y) == Mul(1.0 - y, b); }
  }

  /** Without a size factor, the hinge loss of non-empty data with scores
      in [0, 1] is zero exactly when every solvent clears its margin. */
  lemma HingeLossZeroIff(m: real, radius: real, red: seq<real>, y: seq<real>, exp: real -> real, logCosh: real -> real)
    requires |red| == |y| && |y| > 0
    requires forall i :: 0 <= i < |y| ==> 0.0 <= y[i] <= 1.0
    ensures LossValue(Hinge(None, m), radius, red, y, exp, logCosh).Some?
    ensures LossValue(Hinge(None, m), radius, red, y, exp, logCosh).value >= 0.0
    ensures LossValue(Hinge(None, m), radius, red, y, exp, logCosh).value == 0.0 <==> HingePerfect(red, y, m)
  {
    var t := Terms(Hinge(None, m), red, y, exp, logCosh);
    forall i | 0 <= i < |t| ensures t[i] >= 0.0 && (t[i] == 0.0 <==> (y[i] > 0.0 ==> red[i] <= 1.0 - m) && (y[i] < 1.0 ==> red[i] >= 1.0 + m)) {
      HingeTermMeaning(red[i], y[i], m);
    }
    MeanNonnegZero(t);
  }

  /** With exp(0) = 1, a sample without a boundary violation contributes
      nothing to the exponential loss; with an increasing exp, a
      non-negative strength and a score in [0, 1], no sample contributes
      a negative amount. */
  lemma ExponentialMeaning(red: real, y: real, s: real, exp: real -> real)
    requires exp(0.0) == 1.0
    ensures (y == 1.0 && red <= 1.0) || (y == 0.0 && red >= 1.0) || red == 1.0 ==>
      ExponentialTerm(red, y, s, exp) == 0.0
    ensures (forall a, b :: a <= b ==> exp(a) <= exp(b)) && s >= 0.0 && 0.0 <= y <= 1.0 ==>
      ExponentialTerm(red, y, s, exp) >= 0.0
  {
    var u, v := Max0(red - 1.0), Max0(1.0 - red);
    if red <= 1.0 { assert u == 0.0; assert s * u == 0.0; }
    if red >= 1.0 { assert v == 0.0; assert s * v == 0.0; }
    if (forall a, b :: a <= b ==> exp(a) <= exp(b)) && s >= 0.0 && 0.0 <= y <= 1.0 {
      MulNonneg(s, u);
      MulNonneg(s, v);
      assert exp(0.0) <= exp(s * u);
      assert exp(0.0) <= exp(s * v);
      MulNonneg(y, exp(s * u) - 1.0);
      MulNonneg(1.0 - y, exp(s * v) - 1.0);
    }
  }

  /** Every alternative loss adds size_factor·R² exactly when a size factor
      is given. */
  lemma SizePenaltyRule(f: AltLoss, radius: real, red: seq<real>, y: seq<real>, exp: real -> real, logCosh: real -> real)
    requires |red| == |y| && |y| > 0
    ensures var t := Terms(f, red, y, exp, logCosh);
      LossValue(f, radius, red, y, exp, logCosh) ==
        if f.sizeFactor.Some? then Some(Sum(t) / (|t| as real) + f.sizeFactor.value * (radius * radius))
        else Some(Sum(t) / (|t| as real))
  {
    if f.sizeFactor.Some? {
      assert Mul(f.sizeFactor.value, Sq(radius)) == f.sizeFactor.value * (radius * radius);
    }
  }
}
