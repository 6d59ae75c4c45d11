/**
 * Real-valued 3-vectors and rotators standing in for the engine's FVector and
 * FRotator. Square roots are never computed: an operation that needs a vector
 * length or its reciprocal receives the engine's routines as `size` and the
 * single fact `IsSize(size)` about them.
 */
module Vectors {

  datatype Vec = Vec(x: real, y: real, z: real)

  /** Pitch, yaw and roll in degrees, as FRotator. */
  datatype Rotator = Rotator(pitch: real, yaw: real, roll: real)

  const Zero: Vec := Vec(0.0, 0.0, 0.0)
  const Up: Vec := Vec(0.0, 0.0, 1.0)

  /** UE_SMALL_NUMBER, the tolerance of GetSafeNormal and Normalize. */
  const SmallNumber: real := 0.00000001
  /** UE_KINDA_SMALL_NUMBER, the tolerance of IsNearlyZero. */
  const KindaSmallNumber: real := 0.0001

  function Abs(a: real): (r: real)
    ensures r >= 0.0 && (r == a || r == -a)
  {
    if a < 0.0 then -a else a
  }

  function Add(a: Vec, b: Vec): Vec { Vec(a.x + b.x, a.y + b.y, a.z + b.z) }
  function Sub(a: Vec, b: Vec): Vec { Vec(a.x - b.x, a.y - b.y, a.z - b.z) }
  function Neg(a: Vec): Vec { Vec(-a.x, -a.y, -a.z) }
  function Scale(a: Vec, k: real): Vec { Vec(a.x * k, a.y * k, a.z * k) }
  function Dot(a: Vec, b: Vec): real { a.x * b.x + a.y * b.y + a.z * b.z }
  function Cross(a: Vec, b: Vec): Vec
  {
    Vec(a.y * b.z - a.z * b.y, a.z * b.x - a.x * b.z, a.x * b.y - a.y * b.x)
  }
  function NormSq(a: Vec): real { Dot(a, a) }

  /** The magnitude of `v` is at most a non-negative `bound`, stated without a square root. */
  predicate WithinSpeed(v: Vec, bound: real)
  {
    NormSq(v) <= bound * bound
  }

  /** The vector with its vertical component replaced. */
  function WithZ(a: Vec, z: real): Vec { Vec(a.x, a.y, z) }

  /**
   * The engine's square-root routines applied to a vector: `length` is
   * FVector::Size, and `inverse` the FMath::InvSqrt of the squared norm, the
   * factor GetSafeNormal and Normalize scale by.
   */
  datatype Lengths = Lengths(length: Vec -> real, inverse: Vec -> real)

  /** The length of `v` is non-negative with square the squared norm, and the inverse is its reciprocal. */
  ghost predicate LengthOf(size: Lengths, v: Vec)
  {
    && 0.0 <= size.length(v) && size.length(v) * size.length(v) == NormSq(v)
    && (NormSq(v) > 0.0 ==> size.length(v) * size.inverse(v) == 1.0)
  }

  /**
   * `size` computes Euclidean lengths and their reciprocals. The facts about
   * one vector are brought in by the lemma LengthFacts.
   */
  ghost predicate IsSize(size: Lengths)
  {
    forall v :: LengthOf(size, v)
  }

  lemma LengthFacts(size: Lengths, v: Vec)
    requires IsSize(size)
    ensures 0.0 <= size.length(v) && size.length(v) * size.length(v) == NormSq(v)
    ensures NormSq(v) > 0.0 ==> size.length(v) * size.inverse(v) == 1.0
  {
    assert LengthOf(size, v);
  }

  predicate IsNearlyZero(v: Vec)
  {
    Abs(v.x) <= KindaSmallNumber && Abs(v.y) <= KindaSmallNumber && Abs(v.z) <= KindaSmallNumber
  }

  lemma NormSqNonNegative(v: Vec)
    ensures NormSq(v) >= 0.0
  {
    assert v.x * v.x >= 0.0 && v.y * v.y >= 0.0 && v.z * v.z >= 0.0;
  }

  lemma NormSqScale(v: Vec, k: real)
    ensures NormSq(Scale(v, k)) == k * k * NormSq(v)
  {
    calc {
      NormSq(Scale(v, k));
      (v.x * k) * (v.x * k) + (v.y * k) * (v.y * k) + (v.z * k) * (v.z * k);
      k * k * (v.x * v.x + v.y * v.y + v.z * v.z);
    }
  }

  lemma DotScale(v: Vec, k: real, d: Vec)
    ensures Dot(Scale(v, k), d) == k * Dot(v, d)
  {
  }

  lemma DotAdd(a: Vec, b: Vec, d: Vec)
    ensures Dot(Add(a, b), d) == Dot(a, d) + Dot(b, d)
  {
  }

  lemma DotSub(a: Vec, b: Vec, d: Vec)
    ensures Dot(Sub(a, b), d) == Dot(a, d) - Dot(b, d)
  {
  }

  lemma DotNeg(a: Vec, d: Vec)
    ensures Dot(a, Neg(d)) == -Dot(a, d)
    ensures NormSq(Neg(d)) == NormSq(d)
  {
  }

  lemma ScaleScale(v: Vec, j: real, k: real)
    ensures Scale(Scale(v, j), k) == Scale(v, j * k)
  {
    assert (v.x * j) * k == v.x * (j * k);
    assert (v.y * j) * k == v.y * (j * k);
    assert (v.z * j) * k == v.z * (j * k);
  }

  /** Squaring is monotone on non-negative reals. */
  lemma SquareMonotone(a: real, b: real)
    requires 0.0 <= a <= b
    ensures a * a <= b * b
  {
    assert a * a <= a * b <= b * b;
  }

  lemma SquareStrictMonotone(a: real, b: real)
    requires 0.0 <= a < b
    ensures a * a < b * b
  {
    var d := b - a;
    assert b * b == a * a + d * (a + b);
    assert d * (a + b) > 0.0;
  }

  /** Scaling a vector by the reciprocal of its length gives a unit vector. */
  lemma UnitByLength(v: Vec, s: real, k: real)
    requires s > 0.0 && s * s == NormSq(v) && s * k == 1.0
    ensures k > 0.0 && NormSq(Scale(v, k)) == 1.0
  {
    NormSqScale(v, k);
    calc {
      k * k * NormSq(v);
      k * k * (s * s);
      { assert k * k * (s * s) == (s * k) * (s * k); }
      (s * k) * (s * k);
      1.0;
    }
  }

  /** A positive length of a vector whose squared norm exceeds the tolerance. */
  lemma SizePositive(size: Lengths, v: Vec)
    requires IsSize(size) && NormSq(v) > 0.0
    ensures size.length(v) > 0.0 && size.length(v) * size.length(v) == NormSq(v)
    ensures size.length(v) * size.inverse(v) == 1.0
  {
    LengthFacts(size, v);
  }

  /**
   * FVector::GetSafeNormal: a unit vector in the direction of `v`, or the zero
   * vector when the squared norm is below the tolerance.
   */
  function SafeNormal(v: Vec, size: Lengths): (r: Vec)
    requires IsSize(size)
    ensures NormSq(v) < SmallNumber ==> r == Zero
    ensures NormSq(v) >= SmallNumber ==> NormSq(r) == 1.0
    ensures exists k: real :: k >= 0.0 && r == Scale(v, k)
  {
    var sq := NormSq(v);
    if sq == 1.0 then
      assert v == Scale(v, 1.0);
      v
    else if sq < SmallNumber then
      assert Zero == Scale(v, 0.0);
      Zero
    else
      SizePositive(size, v);
      UnitByLength(v, size.length(v), size.inverse(v));
      Scale(v, size.inverse(v))
  }

  /**
   * FVector::Normalize as an in-place update: `v` scaled to unit length when its
   * squared norm exceeds the tolerance, and `v` itself (not zero) otherwise.
   */
  function Normalized(v: Vec, size: Lengths): (r: Vec)
    requires IsSize(size)
    ensures NormSq(v) > SmallNumber ==> NormSq(r) == 1.0
    ensures NormSq(v) <= SmallNumber ==> r == v
    ensures exists k: real :: k > 0.0 && r == Scale(v, k)
  {
    if NormSq(v) > SmallNumber then
      SizePositive(size, v);
      UnitByLength(v, size.length(v), size.inverse(v));
      Scale(v, size.inverse(v))
    else
      assert v == Scale(v, 1.0);
      v
  }

  /** FVector::Dist, the length of the difference. */
  function Dist(a: Vec, b: Vec, size: Lengths): (r: real)
    requires IsSize(size)
    ensures r >= 0.0 && r * r == NormSq(Sub(a, b))
  {
    LengthFacts(size, Sub(a, b));
    size.length(Sub(a, b))
  }
}
