/**
 * The part of glam's `Vec3` that the starfield uses: addition, scaling by a
 * scalar, length and normalisation. Components are 32-bit floats in the
 * program; here they are reals.
 *
 * The one non-finite value the starfield can reach is what `normalize()`
 * returns for the zero vector: it multiplies by `1 / 0 = inf`, and
 * `0 * inf` makes every component not-a-number. `NaN` stands for that
 * all-NaN vector. Adding or scaling it yields it again, as IEEE arithmetic
 * does, so no partly-NaN vector can arise from it.
 *
 * The square root is not computed: `length()` takes it as a parameter
 * `sqrt`, and the lemmas assume of it only `IsSqrt`.
 */
module Vectors {

  datatype Vec3 = Vec3(x: real, y: real, z: real) | NaN

  const ZERO := Vec3(0.0, 0.0, 0.0)

  /** `a + b`, component-wise: NaN exactly when either operand is. */
  function Add(a: Vec3, b: Vec3): (r: Vec3)
    ensures r.NaN? <==> a.NaN? || b.NaN?
  {
    match (a, b)
    case (Vec3(x1, y1, z1), Vec3(x2, y2, z2)) => Vec3(x1 + x2, y1 + y2, z1 + z2)
    case _ => NaN
  }

  /** `v * c`, component-wise: NaN exactly when `v` is. */
  function Scale(v: Vec3, c: real): (r: Vec3)
    ensures r.NaN? <==> v.NaN?
  {
    match v
    case Vec3(x, y, z) => Vec3(x * c, y * c, z * c)
    case NaN => NaN
  }

  /** `v.dot(v)`, never negative. */
  function SquaredLength(v: Vec3): (q: real)
    requires v.Vec3?
    ensures 0.0 <= q
  {
    v.x * v.x + v.y * v.y + v.z * v.z
  }

  /** What is known of the square root: it gives the non-negative root of a non-negative number. */
  ghost predicate IsSqrt(sqrt: real -> real) {
    forall a :: 0.0 <= a ==> 0.0 <= sqrt(a) && sqrt(a) * sqrt(a) == a
  }

  /** `v.length()`: for a true square root, the non-negative root of the squared length. */
  function Length(v: Vec3, sqrt: real -> real): (l: real)
    requires v.Vec3?
    ensures IsSqrt(sqrt) ==> 0.0 <= l && l * l == SquaredLength(v)
  {
    sqrt(SquaredLength(v))
  }

  /** `v.normalize()`, that is `v * (1 / v.length())`: all-NaN exactly for a vector of length 0. */
  function Normalize(v: Vec3, sqrt: real -> real): (n: Vec3)
    requires v.Vec3?
    ensures n.NaN? <==> Length(v, sqrt) == 0.0
  {
    var l := Length(v, sqrt);
    if l == 0.0 then NaN else Scale(v, 1.0 / l)
  }

  // The real-arithmetic facts below are split into small lemmas over plain
  // reals so that each proof obligation holds only a little non-linear
  // arithmetic.

  /** A product is zero only when a factor is. */
  lemma ProductZero(a: real, b: real)
    requires a * b == 0.0
    ensures a == 0.0 || b == 0.0
  {
  }

  /** A sum of three squares is zero only when all three numbers are. */
  lemma SumOfSquaresZero(x: real, y: real, z: real)
    requires x * x + y * y + z * z == 0.0
    ensures x == 0.0 && y == 0.0 && z == 0.0
  {
    assert 0.0 <= x * x && 0.0 <= y * y && 0.0 <= z * z;
    SumOfNonNegativesZero(x * x, y * y, z * z);
    ProductZero(x, x);
    ProductZero(y, y);
    ProductZero(z, z);
  }

  /** Non-negative numbers summing to zero are all zero. */
  lemma SumOfNonNegativesZero(p: real, q: real, r: real)
    requires 0.0 <= p && 0.0 <= q && 0.0 <= r && p + q + r == 0.0
    ensures p == 0.0 && q == 0.0 && r == 0.0
  {
  }

  /** Only the zero vector has squared length 0. */
  lemma SquaredLengthZero(v: Vec3)
    requires v.Vec3? && SquaredLength(v) == 0.0
    ensures v == ZERO
  {
    SumOfSquaresZero(v.x, v.y, v.z);
  }

  /** `IsSqrt` at one point. */
  lemma SqrtOf(sqrt: real -> real, a: real)
    requires IsSqrt(sqrt) && 0.0 <= a
    ensures 0.0 <= sqrt(a) && sqrt(a) * sqrt(a) == a
  {
  }

  /** A non-negative root is zero exactly when its square is. */
  lemma RootZero(l: real, q: real)
    requires 0.0 <= l && l * l == q
    ensures l == 0.0 <==> q == 0.0
  {
    if q == 0.0 {
      ProductZero(l, l);
    }
  }

  /** `length()` is 0 only for the zero vector, so `normalize()` yields NaN exactly for the zero vector. */
  lemma LengthZero(v: Vec3, sqrt: real -> real)
    requires IsSqrt(sqrt) && v.Vec3?
    ensures Length(v, sqrt) == 0.0 <==> v == ZERO
    ensures Normalize(v, sqrt).NaN? <==> v == ZERO
  {
    SqrtOf(sqrt, SquaredLength(v));
    RootZero(Length(v, sqrt), SquaredLength(v));
    if Length(v, sqrt) == 0.0 {
      SquaredLengthZero(v);
    }
  }

  /** The non-negative root is unique. */
  lemma SqrtUnique(sqrt: real -> real, a: real, r: real)
    requires IsSqrt(sqrt) && 0.0 <= r && r * r == a
    ensures sqrt(a) == r
  {
    var s := sqrt(a);
    assert 0.0 <= s && s * s == a;
    assert (s - r) * (s + r) == s * s - r * r;
    ProductZero(s - r, s + r);
  }

  /** Scaling by `c` scales the squared length by `c * c`. */
  lemma SquaredLengthOfScaled(v: Vec3, c: real)
    requires v.Vec3?
    ensures SquaredLength(Scale(v, c)) == c * c * SquaredLength(v)
  {
  }

  /** `l * c` is a non-negative root of `c * c * l * l`. */
  lemma ScaledRoot(l: real, c: real, q: real, qc: real)
    requires 0.0 <= l && 0.0 <= c && l * l == q && qc == c * c * q
    ensures 0.0 <= l * c && (l * c) * (l * c) == qc
  {
  }

  /** `sqrt(c * c * q) == sqrt(q) * c` for non-negative `c` and `q`. */
  lemma RootOfScaled(sqrt: real -> real, q: real, c: real, qc: real)
    requires IsSqrt(sqrt) && 0.0 <= q && 0.0 <= c && qc == c * c * q
    ensures sqrt(qc) == sqrt(q) * c
  {
    SqrtOf(sqrt, q);
    ScaledRoot(sqrt(q), c, q, qc);
    SqrtUnique(sqrt, qc, sqrt(q) * c);
  }

  /** Scaling by a non-negative `c` scales the length by `c`. */
  lemma LengthOfScaled(v: Vec3, c: real, sqrt: real -> real)
    requires IsSqrt(sqrt) && v.Vec3? && 0.0 <= c
    ensures Length(Scale(v, c), sqrt) == Length(v, sqrt) * c
  {
    SquaredLengthOfScaled(v, c);
    RootOfScaled(sqrt, SquaredLength(v), c, SquaredLength(Scale(v, c)));
  }

  /** The product of non-negative numbers is non-negative. */
  lemma ProductNonNeg(a: real, b: real)
    requires 0.0 <= a && 0.0 <= b
    ensures 0.0 <= a * b
  {
  }

  /** Multiplying by a non-negative number keeps `<=`. */
  lemma MulMonotone(a: real, b: real, c: real)
    requires a <= b && 0.0 <= c
    ensures a * c <= b * c
  {
    ProductNonNeg(b - a, c);
  }

  /** Away from the zero vector `normalize()` yields a unit vector. */
  lemma NormalizeIsUnit(v: Vec3, sqrt: real -> real)
    requires IsSqrt(sqrt) && v.Vec3? && v != ZERO
    ensures Normalize(v, sqrt).Vec3? && Length(Normalize(v, sqrt), sqrt) == 1.0
  {
    LengthZero(v, sqrt);
    var l := Length(v, sqrt);
    InverseOfPositive(l);
    LengthOfScaled(v, 1.0 / l, sqrt);
  }

  /** The reciprocal of a positive number is positive and cancels it. */
  lemma InverseOfPositive(l: real)
    requires 0.0 <= l && l != 0.0
    ensures 0.0 <= 1.0 / l && l * (1.0 / l) == 1.0
  {
  }
}
