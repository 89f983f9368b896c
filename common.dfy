/**
 * Shared vocabulary of the model: optional values, results with an error
 * message, extended reals for the places where the program returns
 * `float('inf')`, and the arithmetic helpers that every loss function uses
 * (absolute value, `max(0, x)`, the sum and the arithmetic mean of a
 * sequence of reals).
 */
module Common {

  datatype Option<T> = None | Some(value: T)

  /** An operation that either produces a value or fails with a message
      (a raised exception or an HTTP error in the program). */
  datatype Result<T> = Ok(value: T) | Err(msg: string)

  /** A real number or positive infinity (`float('inf')` / `np.inf`). */
  datatype XReal = Fin(v: real) | PosInf

  /** a <= b over the extended reals. */
  predicate XLe(a: XReal, b: XReal)
  {
    match (a, b)
    case (_, PosInf) => true
    case (PosInf, Fin(_)) => false
    case (Fin(x), Fin(y)) => x <= y
  }

  /** a < b over the extended reals. */
  predicate XLt(a: XReal, b: XReal)
  {
    match (a, b)
    case (PosInf, _) => false
    case (Fin(_), PosInf) => true
    case (Fin(x), Fin(y)) => x < y
  }

  // Products of reals. The solver's non-linear reasoning is fragile when
  // several products share a variable, so the facts needed are stated once
  // about `Mul` and `Sq`, proved in small steps, and used by name.

  function Mul(a: real, b: real): real
  {
    a * b
  }

  /** x². */
  function Sq(x: real): real
  {
    Mul(x, x)
  }

  lemma MulPos(x: real, y: real)
    requires x > 0.0 && y > 0.0
    ensures Mul(x, y) > 0.0
  {
  }

  lemma MulNonneg(x: real, y: real)
    requires x >= 0.0 && y >= 0.0
    ensures Mul(x, y) >= 0.0
  {
  }

  lemma MulZeroLeft(x: real, y: real)
    requires x == 0.0
    ensures Mul(x, y) == 0.0
  {
  }

  lemma MulLeRight(x: real, y: real, z: real)
    requires x <= y && z >= 0.0
    ensures Mul(x, z) <= Mul(y, z)
  {
  }

  lemma MulLtLeft(x: real, y: real, z: real)
    requires x < y && z > 0.0
    ensures Mul(z, x) < Mul(z, y)
  {
  }

  lemma SqNonneg(x: real)
    ensures Sq(x) >= 0.0
  {
    if x >= 0.0 { MulNonneg(x, x); } else { MulNonneg(-x, -x); assert Mul(-x, -x) == Mul(x, x); }
  }

  lemma SqPos(x: real)
    requires x != 0.0
    ensures Sq(x) > 0.0
  {
    if x > 0.0 { MulPos(x, x); } else { MulPos(-x, -x); assert Mul(-x, -x) == Mul(x, x); }
  }

  lemma SqZeroIff(x: real)
    ensures Sq(x) >= 0.0
    ensures Sq(x) == 0.0 <==> x == 0.0
  {
    SqNonneg(x);
    if x != 0.0 { SqPos(x); }
  }

  lemma SqNeg(x: real)
    ensures Sq(-x) == Sq(x)
  {
    assert Mul(-x, -x) == Mul(x, x);
  }

  /** On non-negative reals, squaring is strictly monotone. */
  lemma SqStrict(x: real, y: real)
    requires 0.0 <= x < y
    ensures Sq(x) < Sq(y)
  {
    MulLeRight(x, y, x);
    MulLtLeft(x, y, y);
    assert Mul(y, x) == Mul(x, y);
  }

  function Abs(x: real): (r: real)
    ensures r >= 0.0
    ensures r == x || r == -x
    ensures r == 0.0 <==> x == 0.0
  {
    if x < 0.0 then -x else x
  }

  /** `np.maximum(0, x)`. */
  function Max0(x: real): (r: real)
    ensures r >= 0.0 && r >= x
    ensures r == 0.0 <==> x <= 0.0
    ensures x > 0.0 ==> r == x
  {
    if x > 0.0 then x else 0.0
  }

  function Max(a: real, b: real): (r: real)
    ensures r >= a && r >= b
    ensures r == a || r == b
  {
    if a >= b then a else b
  }

  function Min(a: real, b: real): (r: real)
    ensures r <= a && r <= b
    ensures r == a || r == b
  {
    if a <= b then a else b
  }

  /** Sum of a sequence, peeled from the back so that a loop which adds
      `s[i]` to an accumulator keeps `acc == Sum(s[..i])`. */
  function Sum(s: seq<real>): real
  {
    if |s| == 0 then 0.0 else Sum(s[..|s| - 1]) + s[|s| - 1]
  }

  lemma SumAppend(s: seq<real>, x: real)
    ensures Sum(s + [x]) == Sum(s) + x
  {
    assert (s + [x])[..|s|] == s;
  }

  predicate AllNonneg(s: seq<real>)
  {
    forall i :: 0 <= i < |s| ==> s[i] >= 0.0
  }

  predicate AllZero(s: seq<real>)
  {
    forall i :: 0 <= i < |s| ==> s[i] == 0.0
  }

  /** A sum of non-negative terms is non-negative, and it is zero exactly
      when every term is zero. */
  lemma {:induction false} SumNonnegZero(s: seq<real>)
    requires AllNonneg(s)
    ensures Sum(s) >= 0.0
    ensures Sum(s) == 0.0 <==> AllZero(s)
  {
    if |s| > 0 {
      var init := s[..|s| - 1];
      assert AllNonneg(init) by {
        forall i | 0 <= i < |init| ensures init[i] >= 0.0 { assert init[i] == s[i]; }
      }
      SumNonnegZero(init);
      if Sum(s) == 0.0 {
        forall i | 0 <= i < |s| ensures s[i] == 0.0 {
          if i < |s| - 1 { assert init[i] == s[i]; }
        }
      }
      if AllZero(s) {
        assert AllZero(init) by {
          forall i | 0 <= i < |init| ensures init[i] == 0.0 { assert init[i] == s[i]; }
        }
      }
    }
  }

  /** A finite sum of terms each at most `b` is at most `|s| * b`, and at
      least `|s| * a` when each term is at least `a`. */
  lemma {:induction false} SumBounds(s: seq<real>, a: real, b: real)
    requires forall i :: 0 <= i < |s| ==> a <= s[i] <= b
    ensures Mul(|s| as real, a) <= Sum(s) <= Mul(|s| as real, b)
  {
    if |s| > 0 {
      var init := s[..|s| - 1];
      forall i | 0 <= i < |init| ensures a <= init[i] <= b { assert init[i] == s[i]; }
      SumBounds(init, a, b);
      MulSucc(|init| as real, a);
      MulSucc(|init| as real, b);
    }
  }

  lemma MulSucc(n: real, a: real)
    ensures Mul(n + 1.0, a) == Mul(n, a) + a
  {
  }

  /** `np.mean`: the arithmetic mean; an empty array gives NaN, here None. */
  function Mean(s: seq<real>): (r: Option<real>)
    ensures r.None? <==> |s| == 0
  {
    if |s| == 0 then None else Some(Sum(s) / (|s| as real))
  }

  /** The mean of non-negative terms is non-negative, and zero exactly when
      every term is zero. */
  lemma MeanNonnegZero(s: seq<real>)
    requires |s| > 0 && AllNonneg(s)
    ensures Mean(s).value >= 0.0
    ensures Mean(s).value == 0.0 <==> AllZero(s)
  {
    SumNonnegZero(s);
  }

  /** The mean lies between the least and the greatest term. */
  lemma MeanBetween(s: seq<real>, a: real, b: real)
    requires |s| > 0
    requires forall i :: 0 <= i < |s| ==> a <= s[i] <= b
    ensures a <= Mean(s).value <= b
  {
    SumBounds(s, a, b);
    DivBetween(Sum(s), |s| as real, a, b);
  }

  lemma DivBetween(x: real, n: real, a: real, b: real)
    requires n > 0.0 && Mul(n, a) <= x <= Mul(n, b)
    ensures a <= x / n <= b
  {
  }

  /** A count out of a positive total, as a percentage, lies in [0, 100]. */
  lemma PercentBounds(c: nat, n: nat)
    requires 0 < n && c <= n
    ensures 0.0 <= c as real / n as real * 100.0 <= 100.0
  {
    var q := c as real / n as real;
    DivBetween(c as real, n as real, 0.0, 1.0);
    MulNonneg(q, 100.0);
    MulLeRight(q, 1.0, 100.0);
  }

  /** Number of elements satisfying `p` (`sum(1 for x in s if p(x))`). */
  function Count<T>(s: seq<T>, p: T -> bool): (n: nat)
    ensures n <= |s|
  {
    if |s| == 0 then 0 else Count(s[..|s| - 1], p) + (if p(s[|s| - 1]) then 1 else 0)
  }

  lemma CountAppend<T>(s: seq<T>, x: T, p: T -> bool)
    ensures Count(s + [x], p) == Count(s, p) + (if p(x) then 1 else 0)
  {
    assert (s + [x])[..|s|] == s;
  }

  /** `f` applied to every element, in order (a column rewritten row by
      row). */
  function MapSeq<T>(s: seq<T>, f: T -> T): (r: seq<T>)
    ensures |r| == |s|
  {
    if |s| == 0 then [] else MapSeq(s[..|s| - 1], f) + [f(s[|s| - 1])]
  }

  lemma {:induction false} MapSeqAt<T>(s: seq<T>, f: T -> T, i: nat)
    requires i < |s|
    ensures MapSeq(s, f)[i] == f(s[i])
  {
    if i < |s| - 1 { MapSeqAt(s[..|s| - 1], f, i); }
  }

  /** Rewriting element `idx` of a sequence whose first `idx` elements are
      done, and counting it. */
  lemma MapSeqStep<T>(s: seq<T>, idx: nat, f: T -> T, p: T -> bool)
    requires idx < |s|
    ensures (MapSeq(s[..idx], f) + s[idx..])[idx] == s[idx]
    ensures (MapSeq(s[..idx], f) + s[idx..])[idx := f(s[idx])] == MapSeq(s[..idx + 1], f) + s[idx + 1..]
    ensures Count(s[..idx + 1], p) == Count(s[..idx], p) + (if p(s[idx]) then 1 else 0)
  {
    assert s[..idx + 1][..idx] == s[..idx];
  }
}
