/** Immutable 2-D vectors (src/vector.js). Numbers are modelled as `real`;
    `Math.sqrt` is the parameter `sqrt`, assumed by the lemmas to be an exact
    non-negative square root (`IsSqrt`). */
module Vectors {
  import opened Wrappers

  datatype Vector = Vector(x: real, y: real)

  /** What the lemmas assume of the host's `Math.sqrt`: it returns the
      non-negative square root of every non-negative number. */
  ghost predicate IsSqrt(sqrt: real -> real) {
    forall t: real :: RootAt(sqrt, t)
  }

  /** `sqrt` is the non-negative square root at `t`. (Kept as a predicate of
      its own so that the fact is only used where a proof asks for it.) */
  ghost predicate RootAt(sqrt: real -> real, t: real) {
    0.0 <= t ==> 0.0 <= sqrt(t) && Pow2(sqrt(t)) == t
  }

  /** `Math.pow(a, 2)`. */
  function Pow2(a: real): real {
    a * a
  }

  function Zero(): (r: Vector)
    ensures r.x == 0.0 && r.y == 0.0
  {
    Vector(0.0, 0.0)
  }

  /** A vector whose two components are both `val`. */
  function Square(val: real): (r: Vector)
    ensures r.x == val && r.y == val
  {
    Vector(val, val)
  }

  /** A copy: vectors are values, so the copy is equal to the original. */
  function Clone(v: Vector): (r: Vector)
    ensures r == v
  {
    Vector(v.x, v.y)
  }

  /** Both components rounded down to the next integer. */
  function Floor(v: Vector): (r: Vector)
    ensures r.x.Floor as real == r.x && r.x <= v.x < r.x + 1.0
    ensures r.y.Floor as real == r.y && r.y <= v.y < r.y + 1.0
  {
    Vector(v.x.Floor as real, v.y.Floor as real)
  }

  function Scale(v: Vector, scalar: real): Vector {
    Vector(v.x * scalar, v.y * scalar)
  }

  /** Taking `w` off the sum again gives back `v`. */
  function Add(v: Vector, w: Vector): (r: Vector)
    ensures r.x - w.x == v.x && r.y - w.y == v.y
  {
    Vector(v.x + w.x, v.y + w.y)
  }

  function Distance(v: Vector, other: Vector, sqrt: real -> real): real {
    sqrt(Pow2(v.x - other.x) + Pow2(v.y - other.y))
  }

  function Magnitude(v: Vector, sqrt: real -> real): real {
    sqrt(Pow2(v.x) + Pow2(v.y))
  }

  /** `clamp(max, min = null)`: a zero-length vector is returned as a copy;
      otherwise the vector is rescaled to `max` when longer than `max`, else
      to `min` when a minimum is given and it is shorter than that. */
  function Clamp(v: Vector, max: real, min: Option<real>, sqrt: real -> real): Vector {
    var magnitude := Magnitude(v, sqrt);
    if magnitude == 0.0 then Clone(v)
    else
      var amplifier :=
        if magnitude > max then max
        else if min.Some? && magnitude < min.value then min.value
        else magnitude;
      Scale(v, amplifier / magnitude)
  }

  // ---------------------------------------------------------------------
  // Real arithmetic used by the proofs below

  lemma Pow2NonNegative(a: real)
    ensures 0.0 <= Pow2(a)
  {
    if a < 0.0 {
      assert a * a == (-a) * (-a);
    }
  }

  lemma Pow2StrictlyMonotonic(a: real, b: real)
    requires 0.0 <= a < b
    ensures Pow2(a) < Pow2(b)
  {
    var d := b - a;
    assert b * b - a * a == d * (a + b);
    assert 0.0 < d * (a + b);
  }

  lemma Pow2Positive(a: real)
    requires a != 0.0
    ensures 0.0 < Pow2(a)
  {
    if a < 0.0 {
      assert Pow2(a) == Pow2(-a);
      Pow2StrictlyMonotonic(0.0, -a);
    } else {
      Pow2StrictlyMonotonic(0.0, a);
    }
  }

  lemma Pow2OfProduct(a: real, b: real)
    ensures Pow2(a * b) == Pow2(a) * Pow2(b)
  {
    assert (a * b) * (a * b) == (a * a) * (b * b);
  }

  lemma Pow2OfNegation(a: real)
    ensures Pow2(-a) == Pow2(a)
  {
  }

  lemma MulNonNegative(a: real, b: real)
    requires 0.0 <= a && 0.0 <= b
    ensures 0.0 <= a * b
  {
  }

  lemma SumOfPow2IsZero(a: real, b: real)
    requires Pow2(a) + Pow2(b) == 0.0
    ensures a == 0.0 && b == 0.0
  {
    Pow2NonNegative(a);
    Pow2NonNegative(b);
    if a != 0.0 { Pow2Positive(a); }
    if b != 0.0 { Pow2Positive(b); }
  }

  /** Two non-negative numbers with the same square are equal. */
  lemma Pow2Injective(s: real, a: real)
    requires 0.0 <= s && 0.0 <= a && Pow2(s) == Pow2(a)
    ensures s == a
  {
    if s < a { Pow2StrictlyMonotonic(s, a); }
    if a < s { Pow2StrictlyMonotonic(a, s); }
  }

  /** The square root of the square of a non-negative number is that number. */
  lemma SqrtOfPow2(sqrt: real -> real, a: real)
    requires IsSqrt(sqrt) && 0.0 <= a
    ensures sqrt(Pow2(a)) == a
  {
    Pow2NonNegative(a);
    assert RootAt(sqrt, Pow2(a));
    Pow2Injective(sqrt(Pow2(a)), a);
  }

  // ---------------------------------------------------------------------
  // Arithmetic laws of add and scale

  lemma AddCommutes(v: Vector, w: Vector)
    ensures Add(v, w) == Add(w, v)
  {
  }

  lemma AddZero(v: Vector)
    ensures Add(v, Zero()) == v && Add(Zero(), v) == v
  {
  }

  lemma ScaleOfZero(k: real)
    ensures Scale(Zero(), k) == Zero()
  {
  }

  lemma ScaleLaws(v: Vector, a: real, b: real)
    ensures Scale(v, 1.0) == v
    ensures Scale(Scale(v, a), b) == Scale(v, a * b)
    ensures Scale(v, a).x == v.x * a && Scale(v, a).y == v.y * a
  {
  }

  /** Magnitude is never negative, is zero exactly for the zero vector, and
      its square is the sum of the squared components. */
  lemma MagnitudeZero(v: Vector, sqrt: real -> real)
    requires IsSqrt(sqrt)
    ensures 0.0 <= Magnitude(v, sqrt)
    ensures Magnitude(v, sqrt) == 0.0 <==> v == Zero()
    ensures Pow2(Magnitude(v, sqrt)) == Pow2(v.x) + Pow2(v.y)
  {
    Pow2NonNegative(v.x);
    Pow2NonNegative(v.y);
    assert RootAt(sqrt, Pow2(v.x) + Pow2(v.y));
    if Magnitude(v, sqrt) == 0.0 {
      assert Pow2(0.0) == 0.0;
      SumOfPow2IsZero(v.x, v.y);
    }
    if v == Zero() {
      SqrtOfPow2(sqrt, 0.0);
    }
  }

  /** Scaling by `k` multiplies the magnitude by the absolute value of `k`. */
  lemma MagnitudeOfScale(v: Vector, k: real, sqrt: real -> real)
    requires IsSqrt(sqrt)
    ensures Magnitude(Scale(v, k), sqrt) == (if k < 0.0 then -k else k) * Magnitude(v, sqrt)
  {
    var m := Magnitude(v, sqrt);
    MagnitudeZero(v, sqrt);
    var ak := if k < 0.0 then -k else k;
    assert Pow2(ak) == Pow2(k);
    Pow2OfProduct(v.x, k);
    Pow2OfProduct(v.y, k);
    Pow2OfProduct(ak, m);
    MulNonNegative(ak, m);
    calc {
      Pow2(Scale(v, k).x) + Pow2(Scale(v, k).y);
      Pow2(v.x) * Pow2(k) + Pow2(v.y) * Pow2(k);
      (Pow2(v.x) + Pow2(v.y)) * Pow2(k);
      Pow2(m) * Pow2(k);
      Pow2(ak) * Pow2(m);
      Pow2(ak * m);
    }
    SqrtOfPow2(sqrt, ak * m);
  }

  /** Distance is the magnitude of the difference of the two points. */
  lemma DistanceIsMagnitudeOfDifference(v: Vector, w: Vector, sqrt: real -> real)
    ensures Distance(v, w, sqrt) == Magnitude(Add(v, Scale(w, -1.0)), sqrt)
  {
    var d := Add(v, Scale(w, -1.0));
    assert d.x == v.x - w.x && d.y == v.y - w.y;
  }

  /** Distance is symmetric. */
  lemma DistanceSymmetric(v: Vector, w: Vector, sqrt: real -> real)
    ensures Distance(v, w, sqrt) == Distance(w, v, sqrt)
  {
    Pow2OfNegation(v.x - w.x);
    Pow2OfNegation(v.y - w.y);
    assert w.x - v.x == -(v.x - w.x) && w.y - v.y == -(v.y - w.y);
  }

  /** Distance is never negative, and is zero exactly between equal points. */
  lemma DistanceZero(v: Vector, w: Vector, sqrt: real -> real)
    requires IsSqrt(sqrt)
    ensures 0.0 <= Distance(v, w, sqrt)
    ensures Distance(v, w, sqrt) == 0.0 <==> v == w
  {
    var d := Add(v, Scale(w, -1.0));
    DistanceIsMagnitudeOfDifference(v, w, sqrt);
    MagnitudeZero(d, sqrt);
    DifferenceIsZero(v, w);
  }

  lemma DifferenceIsZero(v: Vector, w: Vector)
    ensures Add(v, Scale(w, -1.0)) == Zero() <==> v == w
  {
  }

  // ---------------------------------------------------------------------
  // Clamp

  lemma DivideBack(a: real, m: real)
    requires 0.0 < m
    ensures (a / m) * m == a
    ensures 0.0 <= a ==> 0.0 <= a / m
    ensures 0.0 < a ==> 0.0 < a / m
    ensures m < a ==> 1.0 < a / m
  {
  }

  /** A zero vector is returned unchanged (as a copy), whatever the square
      root gives at 0: a copy if it gives 0, else a rescaled zero. */
  lemma ClampOfZero(max: real, min: Option<real>, sqrt: real -> real)
    ensures Clamp(Zero(), max, min, sqrt) == Zero()
  {
  }

  /** A vector whose magnitude already lies within the bounds is unchanged. */
  lemma ClampWithinBounds(v: Vector, max: real, min: Option<real>, sqrt: real -> real)
    requires Magnitude(v, sqrt) <= max
    requires min.None? || min.value <= Magnitude(v, sqrt)
    ensures Clamp(v, max, min, sqrt) == v
  {
    var m := Magnitude(v, sqrt);
    if m != 0.0 {
      assert m / m == 1.0;
      ScaleLaws(v, 1.0, 1.0);
    }
  }

  /** A vector longer than `max` is scaled by `max / m`, a positive factor
      when `max` is positive, and comes out with magnitude `max`. */
  lemma ClampAboveMax(v: Vector, max: real, min: Option<real>, sqrt: real -> real)
    requires IsSqrt(sqrt)
    requires 0.0 < Magnitude(v, sqrt) && max < Magnitude(v, sqrt)
    ensures Clamp(v, max, min, sqrt) == Scale(v, max / Magnitude(v, sqrt))
    ensures 0.0 < max ==> 0.0 < max / Magnitude(v, sqrt)
    ensures 0.0 <= max ==> Magnitude(Clamp(v, max, min, sqrt), sqrt) == max
  {
    var m := Magnitude(v, sqrt);
    var k := max / m;
    assert Clamp(v, max, min, sqrt) == Scale(v, k);
    DivideBack(max, m);
    MagnitudeOfScale(v, k, sqrt);
  }

  /** A non-zero vector no longer than `max` but shorter than a given `min`
      is scaled up by `min / m > 1` and comes out with magnitude `min`. */
  lemma ClampBelowMin(v: Vector, max: real, min: real, sqrt: real -> real)
    requires IsSqrt(sqrt)
    requires 0.0 < Magnitude(v, sqrt) <= max && Magnitude(v, sqrt) < min
    ensures Clamp(v, max, Some(min), sqrt) == Scale(v, min / Magnitude(v, sqrt))
    ensures 1.0 < min / Magnitude(v, sqrt)
    ensures Magnitude(Clamp(v, max, Some(min), sqrt), sqrt) == min
  {
    var m := Magnitude(v, sqrt);
    var k := min / m;
    assert Clamp(v, max, Some(min), sqrt) == Scale(v, k);
    DivideBack(min, m);
    MagnitudeOfScale(v, k, sqrt);
  }

  /** With a non-negative `max` and no `min` above it, a clamped vector is
      never longer than `max`, and a non-zero one is never shorter than
      `min`. (A `min` above `max` can push the result past `max`.) */
  lemma ClampBounded(v: Vector, max: real, min: Option<real>, sqrt: real -> real)
    requires IsSqrt(sqrt)
    requires 0.0 <= max && (min.None? || min.value <= max)
    ensures Magnitude(Clamp(v, max, min, sqrt), sqrt) <= max
    ensures v != Zero() && min.Some? ==> min.value <= Magnitude(Clamp(v, max, min, sqrt), sqrt)
  {
    var m := Magnitude(v, sqrt);
    MagnitudeZero(v, sqrt);
    if v == Zero() {
      ClampOfZero(max, min, sqrt);
    } else if max < m {
      ClampAboveMax(v, max, min, sqrt);
    } else if min.Some? && m < min.value {
      ClampBelowMin(v, max, min.value, sqrt);
    } else {
      ClampWithinBounds(v, max, min, sqrt);
    }
  }

  /** The three `clamp` cases exercised by the source's unit tests. */
  lemma ClampExamples(sqrt: real -> real)
    requires IsSqrt(sqrt)
    ensures Clamp(Vector(0.0, 6.0), 7.0, None, sqrt) == Vector(0.0, 6.0)
    ensures Clamp(Vector(0.0, 6.0), 5.0, None, sqrt) == Vector(0.0, 5.0)
    ensures Clamp(Vector(0.0, 3.0), 10.0, Some(4.0), sqrt) == Vector(0.0, 4.0)
  {
    SqrtOfPow2(sqrt, 6.0);
    assert Pow2(0.0) + Pow2(6.0) == Pow2(6.0);
    assert Magnitude(Vector(0.0, 6.0), sqrt) == 6.0;
    SqrtOfPow2(sqrt, 3.0);
    assert Pow2(0.0) + Pow2(3.0) == Pow2(3.0);
    assert Magnitude(Vector(0.0, 3.0), sqrt) == 3.0;
  }
}
