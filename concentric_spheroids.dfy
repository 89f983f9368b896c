/**
 * hansentest/concentric_spheroids.py: the concentric-spheroids method. A
 * centre (δD, δP, δH) and one radius per solubility level are fitted so that
 * the points of level j lie on the spheroid of radius R_j; the objective is
 * F = Σ_j Σ_i (R_j − Ra_ji)² with the Hansen distance Ra. The square root
 * is a parameter `sqrt`; the optimiser is an oracle whose answer is an
 * input of `Fit`.
 */
module ConcentricSpheroids {

  import opened Common
  import opened HansenDistance

  /** The properties of the square root that the lemmas rely on. */
  ghost predicate IsSqrt(sqrt: real -> real)
  {
    forall x :: x >= 0.0 ==> sqrt(x) >= 0.0 && Sq(sqrt(x)) == x
  }

  /** `calculate_distance`: Ra = √(4·ΔD² + ΔP² + ΔH²). */
  function CalculateDistance(a: Point, b: Point, sqrt: real -> real): real
  {
    sqrt(WeightedDistSq(a, b))
  }

  /** Ra is non-negative, symmetric, and zero exactly on equal points. */
  lemma DistanceMeaning(a: Point, b: Point, sqrt: real -> real)
    requires IsSqrt(sqrt)
    ensures CalculateDistance(a, b, sqrt) >= 0.0
    ensures CalculateDistance(a, b, sqrt) == CalculateDistance(b, a, sqrt)
    ensures CalculateDistance(a, b, sqrt) == 0.0 <==> a == b
  {
    MetricProperties(a, b);
    var r := CalculateDistance(a, b, sqrt);
    assert Sq(r) == WeightedDistSq(a, b);
    SqZeroIff(r);
  }

  /** (R − Ra)² for one point. */
  function Residual(center: Point, radius: real, p: Point, sqrt: real -> real): real
  {
    Sq(radius - CalculateDistance(center, p, sqrt))
  }

  /** Σ_i (R − Ra_i)² over the points of one level. */
  function LevelSum(center: Point, radius: real, pts: seq<Point>, sqrt: real -> real): real
  {
    if |pts| == 0 then 0.0
    else LevelSum(center, radius, pts[..|pts| - 1], sqrt) + Residual(center, radius, pts[|pts| - 1], sqrt)
  }

  /** The sum over the first `k` (radius, level) pairs. */
  function ObjectiveUpTo(center: Point, radii: seq<real>, levels: seq<seq<Point>>, k: nat, sqrt: real -> real): real
    requires k <= |radii| && k <= |levels|
  {
    if k == 0 then 0.0
    else ObjectiveUpTo(center, radii, levels, k - 1, sqrt) + LevelSum(center, radii[k - 1], levels[k - 1], sqrt)
  }

  /** Radii and levels are zipped: the shorter list decides the number of
      pairs. */
  function Pairs(radii: seq<real>, levels: seq<seq<Point>>): (k: nat)
    ensures k <= |radii| && k <= |levels|
  {
    if |radii| <= |levels| then |radii| else |levels|
  }

  function CenterOf(params: seq<real>): Point
    requires |params| >= 3
  {
    Point(params[0], params[1], params[2])
  }

  /** F = Σ_j Σ_i (R_j − Ra_ji)², for params = [δD, δP, δH, R_1, …, R_m]. */
  function Objective(params: seq<real>, levels: seq<seq<Point>>, sqrt: real -> real): real
    requires |params| >= 3
  {
    var radii := params[3..];
    ObjectiveUpTo(CenterOf(params), radii, levels, Pairs(radii, levels), sqrt)
  }

  /** `objective_function`: F accumulated in a loop over the zipped
      (radius, level) pairs and, inside, over the points of the level. */
  method ObjectiveFunction(params: seq<real>, levels: seq<seq<Point>>, sqrt: real -> real) returns (f: real)
    requires |params| >= 3
    ensures f == Objective(params, levels, sqrt)
  {
    var center := Point(params[0], params[1], params[2]);
    var radii := params[3..];
    var k := Pairs(radii, levels);
    f := 0.0;
    for j := 0 to k
      invariant f == ObjectiveUpTo(center, radii, levels, j, sqrt)
    {
      var radius := radii[j];
      var pts := levels[j];
      ghost var before := f;
      for i := 0 to |pts|
        invariant f == before + LevelSum(center, radius, pts[..i], sqrt)
      {
        var ra := CalculateDistance(center, pts[i], sqrt);
        assert pts[..i + 1][..i] == pts[..i];
        f := f + Sq(radius - ra);
      }
      assert pts[..|pts|] == pts;
    }
  }

  /** Every point of level j lies exactly on the spheroid of radius R_j. */
  predicate ExactFitUpTo(center: Point, radii: seq<real>, levels: seq<seq<Point>>, k: nat, sqrt: real -> real)
    requires k <= |radii| && k <= |levels|
  {
    forall j, i :: 0 <= j < k && 0 <= i < |levels[j]| ==> CalculateDistance(center, levels[j][i], sqrt) == radii[j]
  }

  lemma {:induction false} LevelSumZeroIff(center: Point, radius: real, pts: seq<Point>, sqrt: real -> real)
    ensures LevelSum(center, radius, pts, sqrt) >= 0.0
    ensures LevelSum(center, radius, pts, sqrt) == 0.0 <==>
      forall i :: 0 <= i < |pts| ==> CalculateDistance(center, pts[i], sqrt) == radius
  {
    if |pts| > 0 {
      var n := |pts| - 1;
      LevelSumZeroIff(center, radius, pts[..n], sqrt);
      SqZeroIff(radius - CalculateDistance(center, pts[n], sqrt));
      assert forall i :: 0 <= i < n ==> pts[..n][i] == pts[i];
    }
  }

  lemma {:induction false} ObjectiveUpToZeroIff(center: Point, radii: seq<real>, levels: seq<seq<Point>>, k: nat, sqrt: real -> real)
    requires k <= |radii| && k <= |levels|
    ensures ObjectiveUpTo(center, radii, levels, k, sqrt) >= 0.0
    ensures ObjectiveUpTo(center, radii, levels, k, sqrt) == 0.0 <==> ExactFitUpTo(center, radii, levels, k, sqrt)
  {
    if k > 0 {
      ObjectiveUpToZeroIff(center, radii, levels, k - 1, sqrt);
      LevelSumZeroIff(center, radii[k - 1], levels[k - 1], sqrt);
    }
  }

  /** F ≥ 0, and F = 0 exactly when every point of every paired level lies
      at its level's radius. */
  lemma ObjectiveZeroIff(params: seq<real>, levels: seq<seq<Point>>, sqrt: real -> real)
    requires |params| >= 3
    ensures Objective(params, levels, sqrt) >= 0.0
    ensures Objective(params, levels, sqrt) == 0.0 <==>
      ExactFitUpTo(CenterOf(params), params[3..], levels, Pairs(params[3..], levels), sqrt)
  {
    ObjectiveUpToZeroIff(CenterOf(params), params[3..], levels, Pairs(params[3..], levels), sqrt);
  }

  lemma {:induction false} ObjectiveUpToPrefix(center: Point, radii: seq<real>, levels: seq<seq<Point>>,
                                               radii2: seq<real>, levels2: seq<seq<Point>>, k: nat, sqrt: real -> real)
    requires k <= |radii| && k <= |levels| && k <= |radii2| && k <= |levels2|
    requires radii[..k] == radii2[..k] && levels[..k] == levels2[..k]
    ensures ObjectiveUpTo(center, radii, levels, k, sqrt) == ObjectiveUpTo(center, radii2, levels2, k, sqrt)
  {
    if k > 0 {
      assert radii[..k - 1] == radii2[..k - 1] && levels[..k - 1] == levels2[..k - 1];
      ObjectiveUpToPrefix(center, radii, levels, radii2, levels2, k - 1, sqrt);
      assert radii[k - 1] == radii[..k][k - 1] && radii2[k - 1] == radii2[..k][k - 1];
      assert levels[k - 1] == levels[..k][k - 1] && levels2[k - 1] == levels2[..k][k - 1];
    }
  }

  /** Surplus radii beyond the number of levels, and surplus levels beyond
      the number of radii, do not change F. */
  lemma SurplusIgnored(params: seq<real>, levels: seq<seq<Point>>, extraRadii: seq<real>,
                       extraLevels: seq<seq<Point>>, sqrt: real -> real)
    requires |params| >= 3
    ensures |params| - 3 >= |levels| ==> Objective(params + extraRadii, levels, sqrt) == Objective(params, levels, sqrt)
    ensures |params| - 3 <= |levels| ==> Objective(params, levels + extraLevels, sqrt) == Objective(params, levels, sqrt)
  {
    var radii := params[3..];
    if |radii| >= |levels| {
      var p2 := params + extraRadii;
      assert p2[3..] == radii + extraRadii;
      assert CenterOf(p2) == CenterOf(params);
      ObjectiveUpToPrefix(CenterOf(params), radii, levels, p2[3..], levels, |levels|, sqrt);
    }
    if |radii| <= |levels| {
      ObjectiveUpToPrefix(CenterOf(params), radii, levels, radii, levels + extraLevels, |radii|, sqrt);
    }
  }

  /** Total number of points over all levels. */
  function TotalPoints(levels: seq<seq<Point>>): nat
  {
    if |levels| == 0 then 0 else TotalPoints(levels[..|levels| - 1]) + |levels[|levels| - 1]|
  }

  /** `calculate_mse`: F / (Σ n_j − m), infinite when that is not positive. */
  function CalculateMse(f: real, levels: seq<seq<Point>>, m: int): (r: XReal)
    ensures r == PosInf <==> TotalPoints(levels) - m <= 0
  {
    var df := TotalPoints(levels) - m;
    if df <= 0 then PosInf else Fin(f / (df as real))
  }

  /** A finite MSE times the degrees of freedom gives F back, and it is
      non-negative when F is. */
  lemma MseMeaning(f: real, levels: seq<seq<Point>>, m: int)
    requires CalculateMse(f, levels, m).Fin?
    ensures var df := (TotalPoints(levels) - m) as real;
      Mul(CalculateMse(f, levels, m).v, df) == f && (f >= 0.0 ==> CalculateMse(f, levels, m).v >= 0.0)
  {
  }

  /** Default search bounds: (10, 25) for δD, (0, 20) for δP, (0, 30) for δH,
      then (0, 20) for every radius. */
  function DefaultBounds(m: nat): (b: seq<(real, real)>)
  {
    [(10.0, 25.0), (0.0, 20.0), (0.0, 30.0)] + seq(m, _ => (0.0, 20.0))
  }

  lemma DefaultBoundsShape(m: nat)
    ensures |DefaultBounds(m)| == 3 + m
    ensures DefaultBounds(m)[..3] == [(10.0, 25.0), (0.0, 20.0), (0.0, 30.0)]
    ensures forall j :: 3 <= j < 3 + m ==> DefaultBounds(m)[j] == (0.0, 20.0)
  {
  }

  datatype FitResult = FitResult(deltaD: real, deltaP: real, deltaH: real, radii: seq<real>,
                                 f: real, mse: XReal, m: nat, nPoints: nat)

  class ConcentricSpheroidsHsp {
    var result: Option<FitResult>

    constructor ()
      ensures result == None
    {
      result := None;
    }

    /** `fit`, with the optimiser's answer `x` (one entry per bound) and its
        objective value `fun` as inputs; the result is stored and returned. */
    method Fit(levels: seq<seq<Point>>, x: seq<real>, fun: real) returns (r: FitResult)
      requires |x| == |DefaultBounds(|levels|)|
      modifies this
      ensures r == FitResult(x[0], x[1], x[2], x[3..], fun, CalculateMse(fun, levels, |levels|), |levels|, TotalPoints(levels))
      ensures result == Some(r)
    {
      var m := |levels|;
      var mse := CalculateMse(fun, levels, m);
      r := FitResult(x[0], x[1], x[2], x[3..], fun, mse, m, TotalPoints(levels));
      result := Some(r);
    }
  }

  /** After a fit with as many radii as levels, the MSE is infinite
      exactly when there are no more points than levels. */
  lemma FitMseInfinite(levels: seq<seq<Point>>, fun: real)
    ensures CalculateMse(fun, levels, |levels|) == PosInf <==> TotalPoints(levels) <= |levels|
  {
  }

  // ------------------------------------------------- prepare_data_from_csv

  /** A row of the solvent CSV: coordinates and the `Data` score. */
  datatype CsvRow = CsvRow(chemical: string, coords: Point, data: real)

  /** The points of the rows whose score equals `level`, in row order. */
  function LevelPoints(rows: seq<CsvRow>, level: real): (pts: seq<Point>)
    ensures |pts| <= |rows|
  {
    if |rows| == 0 then []
    else
      var r := rows[|rows| - 1];
      LevelPoints(rows[..|rows| - 1], level) + (if r.data == level then [r.coords] else [])
  }

  /** The levels that select at least one row, in the order given. */
  function UsedLevels(rows: seq<CsvRow>, levels: seq<real>): (used: seq<real>)
    ensures |used| <= |levels|
  {
    if |levels| == 0 then []
    else
      var l := levels[|levels| - 1];
      UsedLevels(rows, levels[..|levels| - 1]) + (if |LevelPoints(rows, l)| > 0 then [l] else [])
  }

  function Grouped(rows: seq<CsvRow>, levels: seq<real>): seq<seq<Point>>
  {
    if |levels| == 0 then []
    else
      var l := levels[|levels| - 1];
      Grouped(rows, levels[..|levels| - 1]) + (if |LevelPoints(rows, l)| > 0 then [LevelPoints(rows, l)] else [])
  }

  /** `prepare_data_from_csv` after reading the file: one group per level
      with at least one row. */
  method PrepareData(rows: seq<CsvRow>, levels: seq<real>) returns (groups: seq<seq<Point>>)
    ensures groups == Grouped(rows, levels)
  {
    groups := [];
    for k := 0 to |levels|
      invariant groups == Grouped(rows, levels[..k])
    {
      var pts := LevelPoints(rows, levels[k]);
      assert levels[..k + 1][..k] == levels[..k];
      if |pts| > 0 {
        groups := groups + [pts];
      }
    }
    assert levels[..|levels|] == levels;
  }

  /** The groups are the non-empty levels in the order given: group k holds
      exactly the points of the k-th used level, no group is empty, and
      the used levels are levels given, each one with at least one row. */
  lemma {:induction false} GroupedMeaning(rows: seq<CsvRow>, levels: seq<real>)
    ensures |Grouped(rows, levels)| == |UsedLevels(rows, levels)|
    ensures forall k :: 0 <= k < |Grouped(rows, levels)| ==>
      Grouped(rows, levels)[k] == LevelPoints(rows, UsedLevels(rows, levels)[k]) && |Grouped(rows, levels)[k]| > 0
    ensures forall l :: l in UsedLevels(rows, levels) <==> l in levels && |LevelPoints(rows, l)| > 0
  {
    if |levels| > 0 {
      var n := |levels| - 1;
      GroupedMeaning(rows, levels[..n]);
      assert levels == levels[..n] + [levels[n]];
    }
  }

  /** Every point of a level group comes from a row with that score. */
  lemma {:induction false} LevelPointsMeaning(rows: seq<CsvRow>, level: real)
    ensures forall p :: p in LevelPoints(rows, level) <==> exists i :: 0 <= i < |rows| && rows[i].data == level && rows[i].coords == p
  {
    if |rows| > 0 {
      var n := |rows| - 1;
      LevelPointsMeaning(rows[..n], level);
      forall p ensures p in LevelPoints(rows, level) <==> exists i :: 0 <= i < |rows| && rows[i].data == level && rows[i].coords == p {
        if p in LevelPoints(rows[..n], level) {
          var i :| 0 <= i < n && rows[..n][i].data == level && rows[..n][i].coords == p;
          assert rows[i] == rows[..n][i];
        }
        if exists i :: 0 <= i < |rows| && rows[i].data == level && rows[i].coords == p {
          var i :| 0 <= i < |rows| && rows[i].data == level && rows[i].coords == p;
          if i < n { assert rows[..n][i] == rows[i]; }
        }
      }
    }
  }
}
