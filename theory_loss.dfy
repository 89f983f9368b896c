/**
 * The five "theory-based" loss functions of app/services/theory_based_loss.py.
 *
 * Each loss object holds a size factor (and, for the log barrier, an
 * epsilon); calling it with a candidate sphere [D, P, H, R], the solvent
 * coordinates and the solubility scores y computes RED = distance / R for
 * every solvent, a per-sample loss that depends on RED and on y, their
 * mean, and an optional size penalty. The model receives the RED vector
 * directly (see HansenDistance for how RED relates to the squared
 * distance); `ln` stands for `np.log`, a parameter of the model.
 *
 * The branches test y for exact equality with 1.0 and 0.0; every other y,
 * not only 0.5, takes the "partial" branch.
 */
module TheoryLoss {

  import opened Common

  /** The loss objects, with the parameters of their constructors. */
  datatype LossFunction =
    | BoundaryDistance(sizeFactor: Option<real>)
    | ProportionalBoundary(sizeFactor: Option<real>)
    | LogBarrier(sizeFactor: Option<real>, epsilon: real)
    | NormalizedDistance(sizeFactor: Option<real>)
    | CrossEntropyStyle(sizeFactor: Option<real>)

  /** Default epsilon of `LogBarrierLoss`. */
  const LogBarrierEpsilon: real := 0.000001
  /** Offset in the 1/(RED + 1e-6) term of `NormalizedDistanceLoss`. */
  const NormalizedOffset: real := 0.000001
  /** Clipping bound of the probability in `CrossEntropyStyleLoss`. */
  const ClipEpsilon: real := 0.0000001

  // ---------------------------------------------------------------- terms

  /** `BoundaryDistanceLoss`: distance from the region the score asks for. */
  function BoundaryTerm(red: real, y: real): real
  {
    if y == 1.0 then Max0(red - 1.0)
    else if y == 0.0 then Max0(1.0 - red)
    else Abs(red - 1.0)
  }

  /** `ProportionalBoundaryLoss`: y-weighted outside and inside penalties. */
  function ProportionalTerm(red: real, y: real): real
  {
    y * Max0(red - 1.0) + (1.0 - y) * Max0(1.0 - red)
  }

  /** `LogBarrierLoss` with barrier width `eps`. */
  function LogBarrierTerm(red: real, y: real, eps: real, ln: real -> real): real
  {
    if y == 1.0 then
      (if red < 1.0 - eps then -ln(1.0 - red + eps) else 10.0 * (red - 1.0 + eps))
    else if y == 0.0 then
      (if red > 1.0 + eps then -ln(red - 1.0 + eps) else 10.0 * (1.0 + eps - red))
    else Abs(red - 1.0)
  }

  /** `NormalizedDistanceLoss`: RED, its (offset) reciprocal, or |RED − 1|. */
  function NormalizedTerm(red: real, y: real): real
    requires red >= 0.0
  {
    if y == 1.0 then red
    else if y == 0.0 then 1.0 / (red + NormalizedOffset)
    else Abs(red - 1.0)
  }

  /** `np.clip(p, lo, hi)`. */
  function Clip(p: real, lo: real, hi: real): real
  {
    if p < lo then lo else if p > hi then hi else p
  }

  /** The unclipped probability of being soluble, 1 / (1 + RED²). */
  function SolubleProbability(red: real): real
  {
    SqNonneg(red);
    1.0 / (1.0 + Sq(red))
  }

  /** The clipped probability used by `CrossEntropyStyleLoss`. */
  function ClippedProbability(red: real): real
  {
    Clip(SolubleProbability(red), ClipEpsilon, 1.0 - ClipEpsilon)
  }

  /** `CrossEntropyStyleLoss`: −(y·log p + (1 − y)·log(1 − p)). */
  function CrossEntropyTerm(red: real, y: real, ln: real -> real): real
  {
    var p := ClippedProbability(red);
    -(y * ln(p) + (1.0 - y) * ln(1.0 - p))
  }

  /** The per-sample loss of a loss object. RED is non-negative because it
      is a distance divided by a positive radius. */
  function Term(f: LossFunction, red: real, y: real, ln: real -> real): real
    requires red >= 0.0
  {
    match f
    case BoundaryDistance(_) => BoundaryTerm(red, y)
    case ProportionalBoundary(_) => ProportionalTerm(red, y)
    case LogBarrier(_, eps) => LogBarrierTerm(red, y, eps, ln)
    case NormalizedDistance(_) => NormalizedTerm(red, y)
    case CrossEntropyStyle(_) => CrossEntropyTerm(red, y, ln)
  }

  predicate ValidSamples(red: seq<real>, y: seq<real>)
  {
    |red| == |y| && AllNonneg(red)
  }

  /** `loss_per_sample`. */
  function Terms(f: LossFunction, red: seq<real>, y: seq<real>, ln: real -> real): (t: seq<real>)
    requires ValidSamples(red, y)
    ensures |t| == |y|
    ensures forall i :: 0 <= i < |y| ==> t[i] == Term(f, red[i], y[i], ln)
  {
    seq(|y|, i requires 0 <= i < |y| => Term(f, red[i], y[i], ln))
  }

  /** The size-penalty rule of this file: R² times the factor is added only
      when a factor is given and it is positive. */
  function WithSizePenalty(base: real, sizeFactor: Option<real>, radius: real): real
  {
    if sizeFactor.Some? && sizeFactor.value > 0.0 then base + Mul(sizeFactor.value, Sq(radius))
    else base
  }

  /** The value a loss object returns: the mean of the per-sample losses
      plus the size penalty; None stands for the NaN of an empty mean. */
  function LossValue(f: LossFunction, radius: real, red: seq<real>, y: seq<real>, ln: real -> real): Option<real>
    requires ValidSamples(red, y)
  {
    match Mean(Terms(f, red, y, ln))
    case None => None
    case Some(base) => Some(WithSizePenalty(base, f.sizeFactor, radius))
  }

  // ---------------------------------------------------------------- calls

  /** The index loop of `BoundaryDistanceLoss.__call__`, which fills the
      preallocated `loss_per_sample` array. */
  method BoundaryPerSample(red: seq<real>, y: seq<real>) returns (perSample: seq<real>)
    requires |red| == |y|
    ensures |perSample| == |y|
    ensures forall i :: 0 <= i < |y| ==> perSample[i] == BoundaryTerm(red[i], y[i])
  {
    var a := new real[|y|](_ => 0.0);
    for i := 0 to |y|
      invariant forall j :: 0 <= j < i ==> a[j] == BoundaryTerm(red[j], y[j])
    {
      if y[i] == 1.0 {
        a[i] := Max0(red[i] - 1.0);
      } else if y[i] == 0.0 {
        a[i] := Max0(1.0 - red[i]);
      } else {
        a[i] := Abs(red[i] - 1.0);
      }
    }
    perSample := a[..];
  }

  /** The index loop of `LogBarrierLoss.__call__`. */
  method LogBarrierPerSample(red: seq<real>, y: seq<real>, epsilon: real, ln: real -> real)
    returns (perSample: seq<real>)
    requires |red| == |y|
    ensures |perSample| == |y|
    ensures forall i :: 0 <= i < |y| ==> perSample[i] == LogBarrierTerm(red[i], y[i], epsilon, ln)
  {
    var a := new real[|y|](_ => 0.0);
    for i := 0 to |y|
      invariant forall j :: 0 <= j < i ==> a[j] == LogBarrierTerm(red[j], y[j], epsilon, ln)
    {
      if y[i] == 1.0 {
        if red[i] < 1.0 - epsilon {
          a[i] := -ln(1.0 - red[i] + epsilon);
        } else {
          a[i] := 10.0 * (red[i] - 1.0 + epsilon);
        }
      } else if y[i] == 0.0 {
        if red[i] > 1.0 + epsilon {
          a[i] := -ln(red[i] - 1.0 + epsilon);
        } else {
          a[i] := 10.0 * (1.0 + epsilon - red[i]);
        }
      } else {
        a[i] := Abs(red[i] - 1.0);
      }
    }
    perSample := a[..];
  }

  /** The index loop of `NormalizedDistanceLoss.__call__`. */
  method NormalizedPerSample(red: seq<real>, y: seq<real>) returns (perSample: seq<real>)
    requires ValidSamples(red, y)
    ensures |perSample| == |y|
    ensures forall i :: 0 <= i < |y| ==> perSample[i] == NormalizedTerm(red[i], y[i])
  {
    var a := new real[|y|](_ => 0.0);
    for i := 0 to |y|
      invariant forall j :: 0 <= j < i ==> a[j] == NormalizedTerm(red[j], y[j])
    {
      assert red[i] >= 0.0;
      if y[i] == 1.0 {
        a[i] := red[i];
      } else if y[i] == 0.0 {
        a[i] := 1.0 / (red[i] + NormalizedOffset);
      } else {
        a[i] := Abs(red[i] - 1.0);
      }
    }
    perSample := a[..];
  }

  /** `loss_per_sample` as the loss computes it: by the index loop for the
      boundary, log-barrier and normalized losses, by a whole-array
      expression for the other two. */
  method PerSample(f: LossFunction, red: seq<real>, y: seq<real>, ln: real -> real) returns (perSample: seq<real>)
    requires ValidSamples(red, y)
    ensures perSample == Terms(f, red, y, ln)
  {
    match f
    case BoundaryDistance(_) => perSample := BoundaryPerSample(red, y);
    case LogBarrier(_, eps) => perSample := LogBarrierPerSample(red, y, eps, ln);
    case NormalizedDistance(_) => perSample := NormalizedPerSample(red, y);
    case _ => perSample := Terms(f, red, y, ln);
  }

  /** `loss(HSP, X, y)`: mean of the per-sample losses, then the size
      penalty when the factor is set and positive. */
  method Call(f: LossFunction, radius: real, red: seq<real>, y: seq<real>, ln: real -> real)
    returns (loss: Option<real>)
    requires ValidSamples(red, y)
    ensures loss == LossValue(f, radius, red, y, ln)
  {
    var perSample := PerSample(f, red, y, ln);
    var base := Mean(perSample);
    if base.None? {
      return None;
    }
    if f.sizeFactor.Some? && f.sizeFactor.value > 0.0 {
      var sizePenalty := Mul(f.sizeFactor.value, Sq(radius));
      return Some(base.value + sizePenalty);
    }
    return base;
  }

  // ------------------------------------------------------------- registry

  /** The keys of `LOSS_FUNCTIONS`, in declaration order. */
  const RegisteredNames: seq<string> :=
    ["boundary_distance", "proportional_boundary", "log_barrier", "normalized_distance", "cross_entropy"]

  /** `', '.join(names)`. */
  function CommaJoined(names: seq<string>): string
  {
    if |names| == 0 then ""
    else if |names| == 1 then names[0]
    else names[0] + ", " + CommaJoined(names[1..])
  }

  /** The list of names that the ValueError of `get_loss_function` shows. */
  const AvailableList: string :=
    "boundary_distance" + ", " + "proportional_boundary" + ", " + "log_barrier" + ", " +
    "normalized_distance" + ", " + "cross_entropy"

  /** That list is the registry's keys joined by ", ". */
  lemma AvailableListsRegistry()
    ensures AvailableList == CommaJoined(RegisteredNames)
  {
  }

  /** `get_loss_function(name, size_factor)`: an instance built with its
      default parameters, or the ValueError for a name not registered. */
  function GetLossFunction(name: string, sizeFactor: Option<real>): (r: Result<LossFunction>)
    ensures r.Ok? <==> name in RegisteredNames
    ensures r.Ok? ==> r.value.sizeFactor == sizeFactor
    ensures r.Err? ==> r.msg == "Unknown loss function: " + name + ". Available: " + AvailableList
  {
    if name == "boundary_distance" then Ok(BoundaryDistance(sizeFactor))
    else if name == "proportional_boundary" then Ok(ProportionalBoundary(sizeFactor))
    else if name == "log_barrier" then Ok(LogBarrier(sizeFactor, LogBarrierEpsilon))
    else if name == "normalized_distance" then Ok(NormalizedDistance(sizeFactor))
    else if name == "cross_entropy" then Ok(CrossEntropyStyle(sizeFactor))
    else Err("Unknown loss function: " + name + ". Available: " + AvailableList)
  }

  /** Each registered name builds a different loss, and a name that only
      other modules use (the continuous L2 loss) is not registered. */
  lemma RegistryDistinct(sizeFactor: Option<real>)
    ensures forall i, j :: 0 <= i < j < |RegisteredNames| ==>
      GetLossFunction(RegisteredNames[i], sizeFactor) != GetLossFunction(RegisteredNames[j], sizeFactor)
    ensures GetLossFunction("continuous_l2", sizeFactor).Err?
  {
  }

  // ------------------------------------------------------------ properties

  /** Every boundary term is non-negative; what it is for each score. */
  lemma BoundaryTermMeaning(red: real, y: real)
    ensures BoundaryTerm(red, y) >= 0.0
    ensures y == 1.0 ==> (BoundaryTerm(red, y) == 0.0 <==> red <= 1.0)
    ensures y == 0.0 ==> (BoundaryTerm(red, y) == 0.0 <==> red >= 1.0)
    ensures y != 1.0 && y != 0.0 ==> (BoundaryTerm(red, y) == 0.0 <==> red == 1.0)
  {
  }

  /** Every sample sits where its score asks: good ones inside or on the
      sphere, poor ones outside or on it, all others exactly on it. */
  predicate BoundaryPerfect(red: seq<real>, y: seq<real>)
    requires |red| == |y|
  {
    forall i :: 0 <= i < |y| ==>
      (if y[i] == 1.0 then red[i] <= 1.0
       else if y[i] == 0.0 then red[i] >= 1.0
       else red[i] == 1.0)
  }

  /** The mean boundary loss (without size penalty) is non-negative, and it
      is zero exactly when every sample sits where its score asks. */
  lemma BoundaryLossZeroIff(red: seq<real>, y: seq<real>, radius: real, ln: real -> real)
    requires ValidSamples(red, y) && |y| > 0
    ensures LossValue(BoundaryDistance(None), radius, red, y, ln).Some?
    ensures LossValue(BoundaryDistance(None), radius, red, y, ln).value >= 0.0
    ensures LossValue(BoundaryDistance(None), radius, red, y, ln).value == 0.0 <==> BoundaryPerfect(red, y)
  {
    var t := Terms(BoundaryDistance(None), red, y, ln);
    forall i | 0 <= i < |t| ensures t[i] >= 0.0 { BoundaryTermMeaning(red[i], y[i]); }
    MeanNonnegZero(t);
    if AllZero(t) {
      forall i | 0 <= i < |y|
        ensures if y[i] == 1.0 then red[i] <= 1.0 else if y[i] == 0.0 then red[i] >= 1.0 else red[i] == 1.0
      {
        assert t[i] == 0.0;
        BoundaryTermMeaning(red[i], y[i]);
      }
    }
    if BoundaryPerfect(red, y) {
      forall i | 0 <= i < |t| ensures t[i] == 0.0 { BoundaryTermMeaning(red[i], y[i]); }
    }
  }

  /** For a score in [0, 1] the proportional term is non-negative, and at
      RED = 1 it is zero whatever the score. */
  lemma ProportionalTermMeaning(red: real, y: real)
    ensures 0.0 <= y <= 1.0 ==> ProportionalTerm(red, y) >= 0.0
    ensures ProportionalTerm(1.0, y) == 0.0
  {
    if 0.0 <= y <= 1.0 {
      MulNonneg(y, Max0(red - 1.0));
      MulNonneg(1.0 - y, Max0(1.0 - red));
      assert y * Max0(red - 1.0) == Mul(y, Max0(red - 1.0));
      assert (1.0 - y) * Max0(1.0 - red) == Mul(1.0 - y, Max0(1.0 - red));
    }
  }

  /** The log-barrier branches that penalise a violated constraint are
      linear and non-negative for any epsilon ≥ 0; partial samples get
      |RED − 1|. */
  lemma LogBarrierViolations(red: real, y: real, eps: real, ln: real -> real)
    requires eps >= 0.0
    ensures y == 1.0 && red >= 1.0 - eps ==>
      LogBarrierTerm(red, y, eps, ln) == 10.0 * (red - 1.0 + eps) >= 0.0
    ensures y == 0.0 && red <= 1.0 + eps ==>
      LogBarrierTerm(red, y, eps, ln) == 10.0 * (1.0 + eps - red) >= 0.0
    ensures y != 1.0 && y != 0.0 ==> LogBarrierTerm(red, y, eps, ln) == Abs(red - 1.0)
  {
  }

  /** With a strictly increasing logarithm that vanishes at 1, the interior
      barrier of a good solvent is negative exactly when RED < epsilon: a
      good solvent very near the centre lowers the loss below zero. */
  lemma LogBarrierInteriorSign(red: real, eps: real, ln: real -> real)
    requires forall a, b :: a < b ==> ln(a) < ln(b)
    requires ln(1.0) == 0.0
    requires 0.0 <= red < 1.0 - eps
    ensures LogBarrierTerm(red, 1.0, eps, ln) < 0.0 <==> red < eps
  {
    var arg := 1.0 - red + eps;
    if red < eps {
      assert 1.0 < arg;
      assert ln(1.0) < ln(arg);
    } else if red > eps {
      assert arg < 1.0;
      assert ln(arg) < ln(1.0);
    } else {
      assert arg == 1.0;
    }
  }

  /** Normalized terms are non-negative; a poor solvent's term is positive. */
  lemma NormalizedTermMeaning(red: real, y: real)
    requires red >= 0.0
    ensures NormalizedTerm(red, y) >= 0.0
    ensures y == 0.0 ==> NormalizedTerm(red, y) > 0.0
    ensures y == 1.0 ==> NormalizedTerm(red, y) == red
  {
  }

  /** Every term of the losses that use no logarithm is non-negative for
      scores in [0, 1], so their mean without size penalty is too. */
  lemma LossWithoutLogNonneg(f: LossFunction, red: seq<real>, y: seq<real>, radius: real, ln: real -> real)
    requires ValidSamples(red, y) && |y| > 0
    requires f.BoundaryDistance? || f.ProportionalBoundary? || f.NormalizedDistance?
    requires f.sizeFactor == None
    requires forall i :: 0 <= i < |y| ==> 0.0 <= y[i] <= 1.0
    ensures LossValue(f, radius, red, y, ln).Some?
    ensures LossValue(f, radius, red, y, ln).value >= 0.0
  {
    var t := Terms(f, red, y, ln);
    forall i | 0 <= i < |t| ensures t[i] >= 0.0 {
      BoundaryTermMeaning(red[i], y[i]);
      ProportionalTermMeaning(red[i], y[i]);
      NormalizedTermMeaning(red[i], y[i]);
    }
    MeanNonnegZero(t);
  }

  /** p = 1/(1 + RED²) is 1/2 on the sphere and lies in (0, 1]. */
  lemma ProbabilityAtBoundary()
    ensures SolubleProbability(1.0) == 0.5
    ensures ClippedProbability(1.0) == 0.5
  {
    assert Sq(1.0) == 1.0;
  }

  /** p is non-increasing in RED ≥ 0, before and after clipping, and the
      clipped value stays within [1e-7, 1 − 1e-7]. */
  lemma ProbabilityNonIncreasing(r1: real, r2: real)
    requires 0.0 <= r1 <= r2
    ensures SolubleProbability(r2) <= SolubleProbability(r1)
    ensures ClippedProbability(r2) <= ClippedProbability(r1)
    ensures ClipEpsilon <= ClippedProbability(r1) <= 1.0 - ClipEpsilon
  {
    if r1 < r2 { SqStrict(r1, r2); }
    SqNonneg(r1);
    var a, b := 1.0 + Sq(r1), 1.0 + Sq(r2);
    assert 1.0 <= a <= b;
    assert 1.0 / b <= 1.0 / a by { DivAntitone(a, b); }
  }

  lemma DivAntitone(a: real, b: real)
    requires 0.0 < a <= b
    ensures 1.0 / b <= 1.0 / a
  {
  }

  /** With a logarithm that is non-positive on (0, 1], the cross-entropy
      term of a score in [0, 1] is non-negative. */
  lemma CrossEntropyNonneg(red: real, y: real, ln: real -> real)
    requires forall x :: 0.0 < x <= 1.0 ==> ln(x) <= 0.0
    requires red >= 0.0 && 0.0 <= y <= 1.0
    ensures CrossEntropyTerm(red, y, ln) >= 0.0
  {
    ProbabilityNonIncreasing(red, red);
    var p := ClippedProbability(red);
    assert ln(p) <= 0.0 && ln(1.0 - p) <= 0.0;
    MulNonneg(y, -ln(p));
    MulNonneg(1.0 - y, -ln(1.0 - p));
    assert y * ln(p) == -Mul(y, -ln(p));
    assert (1.0 - y) * ln(1.0 - p) == -Mul(1.0 - y, -ln(1.0 - p));
  }

  /** The size penalty is added exactly when the factor is set and positive;
      otherwise the loss is the plain mean. */
  lemma SizePenaltyRule(base: real, sizeFactor: Option<real>, radius: real)
    ensures sizeFactor.Some? && sizeFactor.value > 0.0 ==>
      WithSizePenalty(base, sizeFactor, radius) == base + sizeFactor.value * (radius * radius)
    ensures !(sizeFactor.Some? && sizeFactor.value > 0.0) ==> WithSizePenalty(base, sizeFactor, radius) == base
    ensures WithSizePenalty(base, sizeFactor, radius) >= base
  {
    if sizeFactor.Some? && sizeFactor.value > 0.0 {
      SqNonneg(radius);
      MulNonneg(sizeFactor.value, Sq(radius));
    }
  }
}
