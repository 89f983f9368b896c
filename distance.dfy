/**
 * Distances in Hansen space and the relative energy difference (RED).
 *
 * Two metrics appear in the program: the loss functions use the plain
 * Euclidean norm of (ΔD, ΔP, ΔH) (`hansen_distance` in both copies of
 * theory_based_loss.py), while the data model and the concentric-spheroids
 * method use the Hansen form 4·ΔD² + ΔP² + ΔH². Square roots are not
 * available over `real`, so each metric is modelled by its square, and a
 * distance `dist` is any value with `IsRoot(dist, sq)`, i.e. `dist == sqrt(sq)`.
 */
module HansenDistance {

  import opened Common

  /** A point (δD, δP, δH) of Hansen space. */
  datatype Point = Point(d: real, p: real, h: real)

  /** Square of `hansen_distance`: the unweighted Euclidean norm. */
  function DistSq(a: Point, b: Point): real
  {
    Sq(a.d - b.d) + Sq(a.p - b.p) + Sq(a.h - b.h)
  }

  /** Square of the Hansen distance Ra: 4·ΔD² + ΔP² + ΔH². */
  function WeightedDistSq(a: Point, b: Point): real
  {
    4.0 * Sq(a.d - b.d) + Sq(a.p - b.p) + Sq(a.h - b.h)
  }

  /** Both metrics are non-negative, zero exactly on equal points, and
      symmetric in their two arguments. */
  lemma MetricProperties(a: Point, b: Point)
    ensures DistSq(a, b) >= 0.0 && WeightedDistSq(a, b) >= 0.0
    ensures DistSq(a, b) == 0.0 <==> a == b
    ensures WeightedDistSq(a, b) == 0.0 <==> a == b
    ensures DistSq(a, b) == DistSq(b, a)
    ensures WeightedDistSq(a, b) == WeightedDistSq(b, a)
  {
    SqZeroIff(a.d - b.d);
    SqZeroIff(a.p - b.p);
    SqZeroIff(a.h - b.h);
    SqNeg(a.d - b.d);
    SqNeg(a.p - b.p);
    SqNeg(a.h - b.h);
    assert -(a.d - b.d) == b.d - a.d;
    assert -(a.p - b.p) == b.p - a.p;
    assert -(a.h - b.h) == b.h - a.h;
  }

  /** The weighted metric lies between the unweighted one and four times it. */
  lemma WeightedBetween(a: Point, b: Point)
    ensures DistSq(a, b) <= WeightedDistSq(a, b) <= 4.0 * DistSq(a, b)
  {
    SqNonneg(a.d - b.d);
    SqNonneg(a.p - b.p);
    SqNonneg(a.h - b.h);
  }

  /** `dist` is the non-negative square root of `sq`. */
  predicate IsRoot(dist: real, sq: real)
  {
    dist >= 0.0 && Sq(dist) == sq
  }

  /** A root is strictly monotone in its square; in particular roots are
      unique. */
  lemma RootMonotone(x: real, sx: real, y: real, sy: real)
    requires IsRoot(x, sx) && IsRoot(y, sy)
    ensures x < y <==> sx < sy
    ensures x == y <==> sx == sy
  {
    if x < y {
      SqStrict(x, y);
    } else if y < x {
      SqStrict(y, x);
    }
  }

  /** The distance from a point to itself is zero, and only there. */
  lemma RootZero(dist: real, a: Point, b: Point)
    requires IsRoot(dist, DistSq(a, b)) || IsRoot(dist, WeightedDistSq(a, b))
    ensures dist == 0.0 <==> a == b
  {
    MetricProperties(a, b);
    SqZeroIff(dist);
  }

  /** RED = distance / radius, for a positive radius. */
  function Red(dist: real, radius: real): real
    requires radius > 0.0
  {
    dist / radius
  }

  lemma RedNonneg(dist: real, radius: real)
    requires dist >= 0.0 && radius > 0.0
    ensures Red(dist, radius) >= 0.0
  {
  }

  /** Classifying by RED compares the squared distance with R²: RED < 1,
      RED = 1 and RED > 1 are exactly dist² < R², dist² = R² and dist² > R². */
  lemma RedVersusOne(dist: real, sq: real, radius: real)
    requires IsRoot(dist, sq) && radius > 0.0
    ensures Red(dist, radius) < 1.0 <==> sq < Sq(radius)
    ensures Red(dist, radius) == 1.0 <==> sq == Sq(radius)
    ensures Red(dist, radius) > 1.0 <==> sq > Sq(radius)
  {
    RootMonotone(dist, sq, radius, Sq(radius));
    assert dist / radius < 1.0 <==> dist < radius;
    assert dist / radius == 1.0 <==> dist == radius;
  }
}
