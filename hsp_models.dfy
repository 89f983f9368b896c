/**
 * app/models/hsp_models.py: HSP values with a sphere radius, the RED of a
 * second point and the compatibility test, the bounds of a calculation
 * result, and the experiment record with its validators, its count of
 * tests by solubility type and its good/bad/partial filters.
 */
module HspModels {

  import opened Common
  import opened Text
  import opened HansenDistance
  import opened SolventModels

  /** Radius used when none is given. */
  const DefaultRadius: real := 4.0

  datatype HspValues = HspValues(deltaD: real, deltaP: real, deltaH: real, radius: real)

  /** Building `HSPValues`: the three parameters and a given radius must be
      non-negative, and a missing radius becomes 4.0. */
  function MakeHspValues(d: real, p: real, h: real, radius: Option<real>): (r: Result<HspValues>)
    ensures r.Ok? <==> d >= 0.0 && p >= 0.0 && h >= 0.0 && NonnegOpt(radius)
    ensures r.Ok? ==> r.value == HspValues(d, p, h, if radius.Some? then radius.value else DefaultRadius)
  {
    if d >= 0.0 && p >= 0.0 && h >= 0.0 && NonnegOpt(radius) then
      Ok(HspValues(d, p, h, if radius.Some? then radius.value else DefaultRadius))
    else Err("ensure this value is greater than or equal to 0")
  }

  /** A missing radius defaults to 4.0 and a given one is kept. */
  lemma DefaultRadiusRule(d: real, p: real, h: real, radius: real)
    requires d >= 0.0 && p >= 0.0 && h >= 0.0
    ensures MakeHspValues(d, p, h, None) == Ok(HspValues(d, p, h, 4.0))
    ensures radius >= 0.0 ==> MakeHspValues(d, p, h, Some(radius)) == Ok(HspValues(d, p, h, radius))
  {
  }

  function PointOf(v: HspValues): Point
  {
    Point(v.deltaD, v.deltaP, v.deltaH)
  }

  /** `calculate_red`: Ra / R with the Hansen distance, or infinity when the
      radius is not positive. */
  function CalculateRed(self: HspValues, other: HspValues, sqrt: real -> real): (r: XReal)
    ensures r == PosInf <==> self.radius <= 0.0
  {
    if self.radius > 0.0 then Fin(sqrt(WeightedDistSq(PointOf(self), PointOf(other))) / self.radius) else PosInf
  }

  /** `is_compatible`: RED < 1.0, strictly. */
  predicate IsCompatible(self: HspValues, other: HspValues, sqrt: real -> real)
  {
    XLt(CalculateRed(self, other, sqrt), Fin(1.0))
  }

  /** RED is non-negative; with a positive radius two points are
      compatible exactly when their squared Hansen distance is below R², so
      a point exactly on the sphere (RED = 1) is not compatible; with a zero
      radius nothing is compatible. */
  lemma CompatibilityMeaning(self: HspValues, other: HspValues, sqrt: real -> real)
    requires IsSqrt(sqrt)
    ensures CalculateRed(self, other, sqrt).Fin? ==> CalculateRed(self, other, sqrt).v >= 0.0
    ensures self.radius > 0.0 ==>
      (IsCompatible(self, other, sqrt) <==> WeightedDistSq(PointOf(self), PointOf(other)) < Sq(self.radius))
    ensures CalculateRed(self, other, sqrt) == Fin(1.0) ==> !IsCompatible(self, other, sqrt)
    ensures self.radius <= 0.0 ==> !IsCompatible(self, other, sqrt)
  {
    var sq := WeightedDistSq(PointOf(self), PointOf(other));
    MetricProperties(PointOf(self), PointOf(other));
    if self.radius > 0.0 {
      var ra := sqrt(sq);
      assert IsRoot(ra, sq);
      RedNonneg(ra, self.radius);
      RedVersusOne(ra, sq, self.radius);
    }
  }

  // ------------------------------------------------------ calculation result

  datatype HspCalculationResult = HspCalculationResult(
    deltaD: real, deltaP: real, deltaH: real, radius: real,
    accuracy: real, error: real, dataFit: real,
    methodName: string, solventCount: int, goodSolvents: int, poorSolvents: Option<int>)

  /** The `Field` constraints of `HSPCalculationResult`. */
  predicate ResultInBounds(r: HspCalculationResult)
  {
    && r.deltaD >= 0.0 && r.deltaP >= 0.0 && r.deltaH >= 0.0 && r.radius >= 0.0
    && 0.0 <= r.accuracy <= 1.0 && r.error >= 0.0 && 0.0 <= r.dataFit <= 1.0
    && r.solventCount >= 0 && r.goodSolvents >= 0 && (r.poorSolvents.Some? ==> r.poorSolvents.value >= 0)
  }

  function ValidateCalculationResult(raw: HspCalculationResult): (r: Result<HspCalculationResult>)
    ensures r.Ok? <==> ResultInBounds(raw)
    ensures r.Ok? ==> r.value == raw
  {
    if ResultInBounds(raw) then Ok(raw) else Err("validation error")
  }

  /** `to_hsp_values`: a valid result always converts, keeping its radius. */
  lemma ToHspValues(r: HspCalculationResult)
    requires ResultInBounds(r)
    ensures MakeHspValues(r.deltaD, r.deltaP, r.deltaH, Some(r.radius)) == Ok(HspValues(r.deltaD, r.deltaP, r.deltaH, r.radius))
  {
  }

  // ------------------------------------------------------- experiment data

  datatype HspExperimentData = HspExperimentData(
    sampleName: string,
    description: Option<string>,
    solventTests: seq<SolventTest>,
    experimenter: Option<string>,
    notes: Option<string>,
    tags: seq<string>)

  /** The two validators: at least one test, a non-blank sample name,
      stored stripped. */
  function ValidateExperiment(raw: HspExperimentData): (r: Result<HspExperimentData>)
    ensures r.Err? <==> |raw.solventTests| == 0 || Blank(raw.sampleName)
    ensures r.Ok? ==> r.value == raw.(sampleName := Strip(raw.sampleName))
    ensures r.Ok? ==> |r.value.solventTests| > 0 && r.value.sampleName != [] && IsStripped(r.value.sampleName)
  {
    if |raw.solventTests| == 0 then Err("At least one solvent test is required")
    else if Blank(raw.sampleName) then Err("Sample name cannot be empty")
    else Ok(raw.(sampleName := Strip(raw.sampleName)))
  }

  predicate IsType(t: SolventTest, k: SolubilityType)
  {
    t.solubility == Category(k)
  }

  /** Number of tests with solubility type `k`. */
  function CountType(tests: seq<SolventTest>, k: SolubilityType): (n: nat)
    ensures n <= |tests|
  {
    if |tests| == 0 then 0 else CountType(tests[..|tests| - 1], k) + (if IsType(tests[|tests| - 1], k) then 1 else 0)
  }

  predicate AllCategorical(tests: seq<SolventTest>)
  {
    forall i :: 0 <= i < |tests| ==> tests[i].solubility.Category?
  }

  /** `get_solvent_count_by_type`: a counter per type, incremented in a loop.
      A numeric solubility is not a key of the counter, so the lookup fails
      and no counts are returned. */
  method GetSolventCountByType(tests: seq<SolventTest>) returns (r: Result<map<SolubilityType, nat>>)
    ensures r.Ok? <==> AllCategorical(tests)
    ensures r.Ok? ==> r.value.Keys == {Soluble, Insoluble, Partial}
    ensures r.Ok? ==> forall k :: k in r.value ==> r.value[k] == CountType(tests, k)
  {
    var counts := map[Soluble := 0, Insoluble := 0, Partial := 0];
    for i := 0 to |tests|
      invariant AllCategorical(tests[..i])
      invariant counts == Counts(tests[..i])
    {
      var s := tests[i].solubility;
      if s.Numeric? {
        assert !AllCategorical(tests);
        return Err("KeyError");
      }
      OneOfThree(s.t);
      CountsStep(tests, i);
      counts := counts[s.t := counts[s.t] + 1];
    }
    assert tests[..|tests|] == tests;
    r := Ok(counts);
  }

  /** The counter after the loop over `tests`. */
  function Counts(tests: seq<SolventTest>): (c: map<SolubilityType, nat>)
    ensures c.Keys == {Soluble, Insoluble, Partial}
    ensures forall k :: k in c ==> c[k] == CountType(tests, k)
  {
    map[Soluble := CountType(tests, Soluble), Insoluble := CountType(tests, Insoluble), Partial := CountType(tests, Partial)]
  }

  lemma OneOfThree(k: SolubilityType)
    ensures k == Soluble || k == Insoluble || k == Partial
  {
    match k
    case Soluble =>
    case Insoluble =>
    case Partial =>
  }

  lemma CountsStep(tests: seq<SolventTest>, i: nat)
    requires i < |tests| && tests[i].solubility.Category? && AllCategorical(tests[..i])
    requires tests[i].solubility.t in Counts(tests[..i])
    ensures Counts(tests[..i + 1]) == Counts(tests[..i])[tests[i].solubility.t := Counts(tests[..i])[tests[i].solubility.t] + 1]
    ensures AllCategorical(tests[..i + 1])
  {
    CountTypeStep(tests, i);
    var t := tests[i].solubility.t;
    var a, b := Counts(tests[..i + 1]), Counts(tests[..i])[t := Counts(tests[..i])[t] + 1];
    assert a.Keys == b.Keys;
    forall k | k in a ensures a[k] == b[k] { }
    assert tests[..i + 1] == tests[..i] + [tests[i]];
  }

  lemma CountTypeStep(tests: seq<SolventTest>, i: nat)
    requires i < |tests| && tests[i].solubility.Category?
    ensures forall k :: CountType(tests[..i + 1], k) == CountType(tests[..i], k) + (if k == tests[i].solubility.t then 1 else 0)
  {
    assert tests[..i + 1][..i] == tests[..i];
  }

  /** For enum-valued tests the three counts add up to the number of tests. */
  lemma {:induction false} CountsSumToTotal(tests: seq<SolventTest>)
    requires AllCategorical(tests)
    ensures CountType(tests, Soluble) + CountType(tests, Insoluble) + CountType(tests, Partial) == |tests|
  {
    if |tests| > 0 {
      var n := |tests| - 1;
      assert AllCategorical(tests[..n]) by {
        forall i | 0 <= i < n ensures tests[..n][i].solubility.Category? { assert tests[..n][i] == tests[i]; }
      }
      CountsSumToTotal(tests[..n]);
      var t := tests[n].solubility.t;
      assert t == Soluble || t == Insoluble || t == Partial;
    }
  }

  /** The tests of type `k`, in order (`get_good_solvents` and friends). */
  function TestsOfType(tests: seq<SolventTest>, k: SolubilityType): (r: seq<SolventTest>)
    ensures |r| == CountType(tests, k)
    ensures forall t :: t in r <==> t in tests && IsType(t, k)
  {
    if |tests| == 0 then []
    else
      var n := |tests| - 1;
      var init := TestsOfType(tests[..n], k);
      assert forall t :: t in tests <==> t in tests[..n] || t == tests[n] by {
        assert tests == tests[..n] + [tests[n]];
      }
      init + (if IsType(tests[n], k) then [tests[n]] else [])
  }

  function GetGoodSolvents(tests: seq<SolventTest>): seq<SolventTest> { TestsOfType(tests, Soluble) }
  function GetBadSolvents(tests: seq<SolventTest>): seq<SolventTest> { TestsOfType(tests, Insoluble) }
  function GetPartialSolvents(tests: seq<SolventTest>): seq<SolventTest> { TestsOfType(tests, Partial) }

  /** The three filters select exactly the tests of their type, no test
      appears in two of them, and for enum-valued tests together they hold
      as many tests as the experiment. */
  lemma FiltersPartition(tests: seq<SolventTest>)
    ensures forall t :: t in GetGoodSolvents(tests) <==> t in tests && t.solubility == Category(Soluble)
    ensures forall t :: t in GetBadSolvents(tests) <==> t in tests && t.solubility == Category(Insoluble)
    ensures forall t :: t in GetPartialSolvents(tests) <==> t in tests && t.solubility == Category(Partial)
    ensures forall t :: !(t in GetGoodSolvents(tests) && t in GetBadSolvents(tests))
    ensures forall t :: !(t in GetGoodSolvents(tests) && t in GetPartialSolvents(tests))
    ensures forall t :: !(t in GetBadSolvents(tests) && t in GetPartialSolvents(tests))
    ensures AllCategorical(tests) ==>
      |GetGoodSolvents(tests)| + |GetBadSolvents(tests)| + |GetPartialSolvents(tests)| == |tests|
  {
    if AllCategorical(tests) {
      CountsSumToTotal(tests);
    }
  }

  // ------------------------------------------------------- list response

  /** The `Field` constraints of `HSPExperimentListResponse`. */
  predicate ListResponseInBounds(totalCount: int, page: int, pageSize: int)
  {
    totalCount >= 0 && page >= 1 && pageSize >= 1
  }
}
