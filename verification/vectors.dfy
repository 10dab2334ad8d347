/** Three-component vectors standing in for `vec3`, `point3` and `color`.
    The arithmetic is exact real arithmetic: IEEE rounding is not modelled. */
module Vectors {

  datatype Vec3 = Vec3(x: real, y: real, z: real)

  /** A position in space. */
  type Point = Vec3

  /** A linear-space RGB intensity. */
  type Color = Vec3

  function Add(a: Vec3, b: Vec3): Vec3 {
    Vec3(a.x + b.x, a.y + b.y, a.z + b.z)
  }

  function Sub(a: Vec3, b: Vec3): Vec3 {
    Vec3(a.x - b.x, a.y - b.y, a.z - b.z)
  }

  function Scale(t: real, a: Vec3): Vec3 {
    Vec3(t * a.x, t * a.y, t * a.z)
  }

  /** Componentwise product, which folds a surface's attenuation into a colour. */
  function Mul(a: Vec3, b: Vec3): Vec3 {
    Vec3(a.x * b.x, a.y * b.y, a.z * b.z)
  }

  const Black: Color := Vec3(0.0, 0.0, 0.0)
  const White: Color := Vec3(1.0, 1.0, 1.0)
  const SkyBlue: Color := Vec3(0.5, 0.7, 1.0)

  predicate IsUnit(v: Vec3) {
    v.x * v.x + v.y * v.y + v.z * v.z == 1.0
  }

  predicate InUnitCube(c: Color) {
    0.0 <= c.x <= 1.0 && 0.0 <= c.y <= 1.0 && 0.0 <= c.z <= 1.0
  }

  /** The colours on the segment from white to sky blue: every channel lies
      between its white and sky-blue values, and red and green fall from white
      in the fixed ratio 0.5 : 0.3 of that segment. These are exactly the
      colours the background gradient produces (`Shading.Background`,
      `Shading.GradientHeight`). */
  predicate InSkyGradient(c: Color) {
    0.5 <= c.x <= 1.0 && 0.7 <= c.y <= 1.0 && c.z == 1.0
    && 1.0 - c.y == 0.6 * (1.0 - c.x)
  }

  /** `n` times a colour on the sky gradient. */
  predicate InScaledSkyGradient(c: Color, n: real) {
    n * 0.5 <= c.x <= n && n * 0.7 <= c.y <= n && c.z == n
    && n - c.y == 0.6 * (n - c.x)
  }

  /** The vertical component of a unit vector lies in [-1, 1], so the blend
      factor `0.5 * (y + 1)` of the background lies in [0, 1]. */
  lemma UnitComponentBounded(v: Vec3)
    requires IsUnit(v)
    ensures -1.0 <= v.y <= 1.0
    ensures 0.0 <= 0.5 * (v.y + 1.0) <= 1.0
  {
    assert v.x * v.x >= 0.0 && v.z * v.z >= 0.0;
    assert v.y * v.y <= 1.0;
  }

  lemma ProductNonNegative(a: real, b: real)
    requires 0.0 <= a && 0.0 <= b
    ensures 0.0 <= a * b
  {
  }

  lemma ProductInUnitInterval(a: real, b: real)
    requires 0.0 <= a <= 1.0 && 0.0 <= b <= 1.0
    ensures 0.0 <= a * b <= 1.0
  {
    ProductNonNegative(a, b);
    ProductNonNegative(1.0 - a, b);
    assert (1.0 - a) * b == b - a * b;
  }

  /** Dividing by `n` maps the interval [n * lo, n * hi] onto [lo, hi]. */
  lemma ScaleDownBounds(x: real, lo: real, hi: real, n: real)
    requires n > 0.0 && n * lo <= x <= n * hi
    ensures lo <= (1.0 / n) * x <= hi
  {
    var k := 1.0 / n;
    assert k * n == 1.0;
    ProductNonNegative(k, x - n * lo);
    ProductNonNegative(k, n * hi - x);
    assert k * (x - n * lo) == k * x - (k * n) * lo;
    assert k * (n * hi - x) == (k * n) * hi - k * x;
  }

  /** The average of colours that all lie in the sky gradient lies in it too. */
  lemma ScaledSkyAverage(sum: Color, n: real)
    requires n > 0.0 && InScaledSkyGradient(sum, n)
    ensures InSkyGradient(Scale(1.0 / n, sum))
  {
    ScaleDownBounds(sum.x, 0.5, 1.0, n);
    ScaleDownBounds(sum.y, 0.7, 1.0, n);
    ScaleDownBounds(sum.z, 1.0, 1.0, n);
    var k := 1.0 / n;
    assert k * n == 1.0;
    assert k * (n - sum.y) == k * (0.6 * (n - sum.x));
  }

  lemma MulInUnitCube(a: Color, b: Color)
    requires InUnitCube(a) && InUnitCube(b)
    ensures InUnitCube(Mul(a, b))
  {
    ProductInUnitInterval(a.x, b.x);
    ProductInUnitInterval(a.y, b.y);
    ProductInUnitInterval(a.z, b.z);
  }

  lemma MulAssociative(a: Vec3, b: Vec3, c: Vec3)
    ensures Mul(Mul(a, b), c) == Mul(a, Mul(b, c))
  {
  }
}
