/**
 * hansentest/continuous_hsp_loss.py: the continuous L2 boundary loss, an
 * object that also remembers the last scores it was called with and counts
 * its calls, and the weighted-distance loss, which pulls RED towards a
 * target that depends linearly on the score.
 */
module ContinuousLoss {

  import opened Common

  /** good_penalty + poor_penalty of one sample:
      y·max(0, RED − 1)² + (1 − y)·max(0, 1 − RED)². */
  function ContinuousTerm(red: real, y: real): real
  {
    y * Sq(Max0(red - 1.0)) + (1.0 - y) * Sq(Max0(1.0 - red))
  }

  function ContinuousTerms(red: seq<real>, y: seq<real>): (t: seq<real>)
    requires |red| == |y|
    ensures |t| == |y|
    ensures forall i :: 0 <= i < |y| ==> t[i] == ContinuousTerm(red[i], y[i])
  {
    seq(|y|, i requires 0 <= i < |y| => ContinuousTerm(red[i], y[i]))
  }

  /** The value `ContinuousHSPLoss` returns: the mean penalty, plus
      size_factor·R² whenever a size factor is given. */
  function ContinuousLossValue(sizeFactor: Option<real>, radius: real, red: seq<real>, y: seq<real>): Option<real>
    requires |red| == |y|
  {
    match Mean(ContinuousTerms(red, y))
    case None => None
    case Some(base) => Some(if sizeFactor.Some? then base + Mul(sizeFactor.value, Sq(radius)) else base)
  }

  /** Target RED of `WeightedDistanceLoss`: 2 − 1.5·y. */
  function TargetRed(y: real): real
  {
    2.0 - 1.5 * y
  }

  function WeightedTerms(red: seq<real>, y: seq<real>): (t: seq<real>)
    requires |red| == |y|
    ensures |t| == |y|
    ensures forall i :: 0 <= i < |y| ==> t[i] == Sq(red[i] - TargetRed(y[i]))
  {
    seq(|y|, i requires 0 <= i < |y| => Sq(red[i] - TargetRed(y[i])))
  }

  /** The value `WeightedDistanceLoss` returns: mean squared distance to the
      target, plus size_factor·R (linear in R) when a factor is given. */
  function WeightedLossValue(sizeFactor: Option<real>, radius: real, red: seq<real>, y: seq<real>): Option<real>
    requires |red| == |y|
  {
    match Mean(WeightedTerms(red, y))
    case None => None
    case Some(base) => Some(if sizeFactor.Some? then base + sizeFactor.value * radius else base)
  }

  class ContinuousHspLoss {
    const sizeFactor: Option<real>
    const debug: bool
    /** `self.y`: the scores of the most recent call, None before any call. */
    var y: Option<seq<real>>
    var callCount: nat

    constructor (sizeFactor: Option<real>, debug: bool)
      ensures this.sizeFactor == sizeFactor && this.debug == debug
      ensures y == None && callCount == 0
    {
      this.sizeFactor := sizeFactor;
      this.debug := debug;
      y := None;
      callCount := 0;
    }

    /** `__call__(HSP, X, y)`: records y, computes the loss and counts the
        call exactly once. */
    method Call(radius: real, red: seq<real>, scores: seq<real>) returns (loss: Option<real>)
      requires |red| == |scores|
      modifies this
      ensures y == Some(scores)
      ensures callCount == old(callCount) + 1
      ensures loss == ContinuousLossValue(sizeFactor, radius, red, scores)
    {
      y := Some(scores);
      var base := Mean(ContinuousTerms(red, scores));
      if base.None? {
        loss := None;
      } else if sizeFactor.Some? {
        var sizePenalty := Mul(sizeFactor.value, Sq(radius));
        loss := Some(base.value + sizePenalty);
      } else {
        loss := base;
      }
      callCount := callCount + 1;
    }
  }

  class WeightedDistanceLoss {
    const sizeFactor: Option<real>
    var y: Option<seq<real>>

    constructor (sizeFactor: Option<real>)
      ensures this.sizeFactor == sizeFactor && y == None
    {
      this.sizeFactor := sizeFactor;
      y := None;
    }

    method Call(radius: real, red: seq<real>, scores: seq<real>) returns (loss: Option<real>)
      requires |red| == |scores|
      modifies this
      ensures y == Some(scores)
      ensures loss == WeightedLossValue(sizeFactor, radius, red, scores)
    {
      y := Some(scores);
      loss := Mean(WeightedTerms(red, scores));
      if loss.Some? && sizeFactor.Some? {
        loss := Some(loss.value + sizeFactor.value * radius);
      }
    }
  }

  // ------------------------------------------------------------ properties

  /** For a score in [0, 1] the continuous term is non-negative, and it is
      zero exactly when a score above 0 has RED ≤ 1 and a score below 1
      has RED ≥ 1. */
  lemma ContinuousTermMeaning(red: real, y: real)
    requires 0.0 <= y <= 1.0
    ensures ContinuousTerm(red, y) >= 0.0
    ensures ContinuousTerm(red, y) == 0.0 <==> (y > 0.0 ==> red <= 1.0) && (y < 1.0 ==> red >= 1.0)
  {
    var a, b := Sq(Max0(red - 1.0)), Sq(Max0(1.0 - red));
    SqZeroIff(Max0(red - 1.0));
    SqZeroIff(Max0(1.0 - red));
    MulNonneg(y, a);
    MulNonneg(1.0 - y, b);
    assert y * a == Mul(y, a);
    assert (1.0 - y) * b == Mul(1.0 - y, b);
    if y > 0.0 && a > 0.0 { MulPos(y, a); }
    if y < 1.0 && b > 0.0 { MulPos(1.0 - y, b); }
    if y == 0.0 { MulZeroLeft(y, a); }
    if y == 1.0 { MulZeroLeft(1.0 - y, b); }
  }

  /** Scores in [0, 1] for every sample. */
  predicate ScoresInUnit(y: seq<real>)
  {
    forall i :: 0 <= i < |y| ==> 0.0 <= y[i] <= 1.0
  }

  /** Every solvent lies on the side of the sphere its score asks for. */
  predicate ContinuousPerfect(red: seq<real>, y: seq<real>)
    requires |red| == |y|
  {
    forall i :: 0 <= i < |y| ==> (y[i] > 0.0 ==> red[i] <= 1.0) && (y[i] < 1.0 ==> red[i] >= 1.0)
  }

  /** Without a size factor, the loss of non-empty data with scores in
      [0, 1] is non-negative, and zero exactly when every solvent lies on
      the side its score asks for. */
  lemma ContinuousLossZeroIff(red: seq<real>, y: seq<real>, radius: real)
    requires |red| == |y| && |y| > 0 && ScoresInUnit(y)
    ensures ContinuousLossValue(None, radius, red, y).Some?
    ensures ContinuousLossValue(None, radius, red, y).value >= 0.0
    ensures ContinuousLossValue(None, radius, red, y).value == 0.0 <==> ContinuousPerfect(red, y)
  {
    var t := ContinuousTerms(red, y);
    forall i | 0 <= i < |t| ensures t[i] >= 0.0 { ContinuousTermMeaning(red[i], y[i]); }
    MeanNonnegZero(t);
    if AllZero(t) {
      forall i | 0 <= i < |y| ensures (y[i] > 0.0 ==> red[i] <= 1.0) && (y[i] < 1.0 ==> red[i] >= 1.0) {
        assert t[i] == 0.0;
        ContinuousTermMeaning(red[i], y[i]);
      }
    }
    if ContinuousPerfect(red, y) {
      forall i | 0 <= i < |t| ensures t[i] == 0.0 { ContinuousTermMeaning(red[i], y[i]); }
    }
  }

  /** The target RED is 0.5 for y = 1, 1.25 for y = 0.5 (the code comment
      says 1.0) and 2.0 for y = 0, and it decreases as the score grows. */
  lemma TargetRedValues(y1: real, y2: real)
    ensures TargetRed(1.0) == 0.5 && TargetRed(0.5) == 1.25 && TargetRed(0.0) == 2.0
    ensures y1 < y2 ==> TargetRed(y2) < TargetRed(y1)
  {
  }

  /** Without a size factor the weighted loss of non-empty data is
      non-negative, and zero exactly when every RED equals its target. */
  lemma WeightedLossZeroIff(red: seq<real>, y: seq<real>, radius: real)
    requires |red| == |y| && |y| > 0
    ensures WeightedLossValue(None, radius, red, y).Some?
    ensures WeightedLossValue(None, radius, red, y).value >= 0.0
    ensures WeightedLossValue(None, radius, red, y).value == 0.0 <==>
      forall i :: 0 <= i < |y| ==> red[i] == TargetRed(y[i])
  {
    var t := WeightedTerms(red, y);
    forall i | 0 <= i < |t| ensures t[i] >= 0.0 && (t[i] == 0.0 <==> red[i] == TargetRed(y[i])) {
      SqZeroIff(red[i] - TargetRed(y[i]));
    }
    MeanNonnegZero(t);
  }

  /** The weighted loss's size penalty is linear in R and the continuous
      loss's is quadratic: doubling R doubles one and quadruples the other. */
  lemma SizePenaltyShapes(sf: real, radius: real, red: seq<real>, y: seq<real>)
    requires |red| == |y| && |y| > 0
    ensures WeightedLossValue(Some(sf), 2.0 * radius, red, y).value - WeightedLossValue(None, 2.0 * radius, red, y).value
      == 2.0 * (WeightedLossValue(Some(sf), radius, red, y).value - WeightedLossValue(None, radius, red, y).value)
    ensures ContinuousLossValue(Some(sf), 2.0 * radius, red, y).value - ContinuousLossValue(None, 2.0 * radius, red, y).value
      == 4.0 * (ContinuousLossValue(Some(sf), radius, red, y).value - ContinuousLossValue(None, radius, red, y).value)
  {
    assert Sq(2.0 * radius) == 4.0 * Sq(radius);
    assert Mul(sf, 4.0 * Sq(radius)) == 4.0 * Mul(sf, Sq(radius));
  }
}
