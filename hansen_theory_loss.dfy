/**
 * hansentest/theory_based_loss.py: the research copy of the five
 * theory-based losses. Its per-sample formulas are those of the
 * application copy (module TheoryLoss); it differs only in the size
 * penalty, which it adds whenever a size factor is given, including zero
 * and negative factors, and it has no name registry.
 */
module HansenTestTheoryLoss {

  import opened Common
  import TheoryLoss

  /** This copy's size-penalty rule: any given factor is applied. */
  function WithSizePenalty(base: real, sizeFactor: Option<real>, radius: real): real
  {
    if sizeFactor.Some? then base + Mul(sizeFactor.value, Sq(radius)) else base
  }

  function LossValue(f: TheoryLoss.LossFunction, radius: real, red: seq<real>, y: seq<real>, ln: real -> real): Option<real>
    requires TheoryLoss.ValidSamples(red, y)
  {
    match Mean(TheoryLoss.Terms(f, red, y, ln))
    case None => None
    case Some(base) => Some(WithSizePenalty(base, f.sizeFactor, radius))
  }

  /** `loss(HSP, X, y)` of this copy: the same per-sample loop or
      expression, the mean, then the unconditional size penalty. */
  method Call(f: TheoryLoss.LossFunction, radius: real, red: seq<real>, y: seq<real>, ln: real -> real)
    returns (loss: Option<real>)
    requires TheoryLoss.ValidSamples(red, y)
    ensures loss == LossValue(f, radius, red, y, ln)
  {
    var perSample := TheoryLoss.PerSample(f, red, y, ln);
    var base := Mean(perSample);
    if base.None? {
      return None;
    }
    if f.sizeFactor.Some? {
      var sizePenalty := Mul(f.sizeFactor.value, Sq(radius));
      return Some(base.value + sizePenalty);
    }
    return base;
  }

  /** Any given factor, also zero or negative, adds factor·R²; without one
      the loss is the plain mean of the per-sample losses. */
  lemma SizePenaltyRule(f: TheoryLoss.LossFunction, radius: real, red: seq<real>, y: seq<real>, ln: real -> real)
    requires TheoryLoss.ValidSamples(red, y) && |y| > 0
    ensures var t := TheoryLoss.Terms(f, red, y, ln);
      LossValue(f, radius, red, y, ln) ==
        if f.sizeFactor.Some? then Some(Sum(t) / (|t| as real) + f.sizeFactor.value * (radius * radius))
        else Some(Sum(t) / (|t| as real))
  {
    if f.sizeFactor.Some? {
      assert Mul(f.sizeFactor.value, Sq(radius)) == f.sizeFactor.value * (radius * radius);
    }
  }

  /** The two copies agree unless the factor is given and negative (a zero
      factor adds nothing in either); with a negative factor and a non-zero
      radius this copy returns strictly less. */
  lemma CompareWithApplication(f: TheoryLoss.LossFunction, radius: real, red: seq<real>, y: seq<real>, ln: real -> real)
    requires TheoryLoss.ValidSamples(red, y)
    ensures (f.sizeFactor.None? || f.sizeFactor.value >= 0.0) ==>
      LossValue(f, radius, red, y, ln) == TheoryLoss.LossValue(f, radius, red, y, ln)
    ensures f.sizeFactor.Some? && f.sizeFactor.value < 0.0 && radius != 0.0 && |y| > 0 ==>
      LossValue(f, radius, red, y, ln).value < TheoryLoss.LossValue(f, radius, red, y, ln).value
  {
    if f.sizeFactor.Some? {
      var sf := f.sizeFactor.value;
      if sf == 0.0 {
        assert Mul(sf, Sq(radius)) == 0.0;
      } else if sf < 0.0 && radius != 0.0 {
        SqPos(radius);
        MulPos(-sf, Sq(radius));
        assert Mul(sf, Sq(radius)) == -Mul(-sf, Sq(radius));
      }
    }
  }
}
