/** Two-dimensional vector algebra of `vector_operations.py`, over exact
    reals. The game's `Vector2`/`Point` arithmetic is componentwise, so a
    vector is a pair of reals and the operators are plain functions. */
module Vectors {
  import opened Analytic
  import opened Wrappers

  datatype Vec = Vec(x: real, y: real)

  datatype Vec3 = Vec3(x: real, y: real, z: real)

  const Zero: Vec := Vec(0.0, 0.0)

  function Add(a: Vec, b: Vec): Vec {
    Vec(a.x + b.x, a.y + b.y)
  }

  function Sub(a: Vec, b: Vec): Vec {
    Vec(a.x - b.x, a.y - b.y)
  }

  function Scale(a: Vec, k: real): Vec {
    Vec(a.x * k, a.y * k)
  }

  /** `a / k` for a vector `a` and a number `k`; Python raises
      ZeroDivisionError for `k == 0`, which callers rule out first. */
  function Div(a: Vec, k: real): Vec
    requires k != 0.0
  {
    Vec(a.x / k, a.y / k)
  }

  /** `dot`: the componentwise product, summed. */
  function Dot(a: Vec, b: Vec): real {
    a.x * b.x + a.y * b.y
  }

  /** The 2D branch of `cross`: the z-component of the 3D cross product. */
  function Cross(a: Vec, b: Vec): real {
    a.x * b.y - a.y * b.x
  }

  /** The squared length `x**2 + y**2`. */
  function NormSq(a: Vec): real {
    Sq(a.x) + Sq(a.y)
  }

  /** `abs(v)` on a vector: its Euclidean length. */
  function Length(sqrt: real -> real, a: Vec): real {
    sqrt(NormSq(a))
  }

  /** `a / abs(a)`: the unit vector along a non-zero vector. */
  function Normalize(sqrt: real -> real, a: Vec): Vec
    requires IsSqrt(sqrt)
    requires a != Zero
  {
    NormSqPositive(a);
    SqrtPositive(sqrt, NormSq(a));
    Div(a, Length(sqrt, a))
  }

  /** The vector turned a quarter turn counter-clockwise, `(-y, x)`. */
  function Perp(a: Vec): Vec {
    Vec(-a.y, a.x)
  }

  // ---------------------------------------------------------------------
  // cross with mixed argument types

  /** The argument types `cross` distinguishes with `isinstance`. */
  datatype AnyVec = V2(v2: Vec) | V3(v3: Vec3)

  /** What `cross` returns: a number for two `Vector2`s, a `Vector3` for
      two `Vector3`s. */
  datatype CrossValue = Scalar(z: real) | Vector(w: Vec3)

  function Dot3(a: Vec3, b: Vec3): real {
    a.x * b.x + a.y * b.y + a.z * b.z
  }

  function Cross3(a: Vec3, b: Vec3): Vec3 {
    Vec3(a.y * b.z - a.z * b.y, -(a.x * b.z - a.z * b.x), a.x * b.y - a.y * b.x)
  }

  /** `cross(v1, v2)`: the mixed cases match neither `isinstance` branch and
      fall off the end of the function, returning `None`. */
  function CrossOf(a: AnyVec, b: AnyVec): (r: Option<CrossValue>)
    ensures r.Some? <==> (a.V2? <==> b.V2?)
    ensures a.V2? && b.V2? ==> r == Some(Scalar(Cross(a.v2, b.v2)))
    ensures a.V3? && b.V3? ==> r.Some? && r.value.Vector?
                               && Dot3(r.value.w, a.v3) == 0.0
                               && Dot3(r.value.w, b.v3) == 0.0
  {
    match (a, b)
    case (V2(p), V2(q)) => Some(Scalar(Cross(p, q)))
    case (V3(p), V3(q)) =>
      Cross3Orthogonal(p, q);
      Some(Vector(Cross3(p, q)))
    case _ => None
  }

  // ---------------------------------------------------------------------
  // rotate and reflect

  /** `rotate(vec, angle)` with `(c, s) == (cos angle, sin angle)` supplied. */
  function Rotate(v: Vec, c: real, s: real): Vec {
    Vec(v.x * c - v.y * s, v.x * s + v.y * c)
  }

  /** The mirror image of `v` in the line orthogonal to `n`: `v - 2 (v.n) n`. */
  function Mirror(v: Vec, n: Vec): Vec {
    Sub(v, Scale(n, 2.0 * Dot(v, n)))
  }

  /** `reflect(v, surface_normal)` as written: the normal is divided by its
      length only when its squared length is already within 0.001 of 1;
      any other normal is used as it is. */
  function Reflect(sqrt: real -> real, v: Vec, n: Vec): Vec
    requires IsSqrt(sqrt)
  {
    if Abs(Sq(n.x) + Sq(n.y) - 1.0) < 0.001 then
      assert n != Zero;
      Mirror(v, Normalize(sqrt, n))
    else
      Mirror(v, n)
  }

  /** `reflect` as evidently intended: every non-zero normal is brought to
      unit length before mirroring; the zero normal leaves `v` as it is,
      as it does in the code as written. */
  function ReflectNormalized(sqrt: real -> real, v: Vec, n: Vec): Vec
    requires IsSqrt(sqrt)
  {
    if n == Zero then v else Mirror(v, Normalize(sqrt, n))
  }

  // ---------------------------------------------------------------------
  // lemmas

  /** Two points differ exactly when their difference is non-zero. */
  lemma SubZero(a: Vec, b: Vec)
    ensures Sub(a, b) == Zero <==> a == b
  {
  }

  lemma NormSqPositive(a: Vec)
    ensures 0.0 <= NormSq(a)
    ensures NormSq(a) == 0.0 <==> a == Zero
  {
    SquareNonNegative(a.x);
    SquareNonNegative(a.y);
    SquareZero(a.x);
    SquareZero(a.y);
  }

  /** The length of a vector is zero exactly for the zero vector. */
  lemma LengthZero(sqrt: real -> real, v: Vec)
    requires IsSqrt(sqrt)
    ensures Length(sqrt, v) == 0.0 <==> v == Zero
  {
    NormSqPositive(v);
    SquareZero(Length(sqrt, v));
  }

  /** A length is never negative and squares to the squared length. */
  lemma LengthSquared(sqrt: real -> real, v: Vec)
    requires IsSqrt(sqrt)
    ensures Sq(Length(sqrt, v)) == NormSq(v) && 0.0 <= Length(sqrt, v)
  {
    NormSqPositive(v);
  }

  /** `dot` is symmetric, and a vector's dot product with itself is its
      squared length: never negative, and zero only for the zero vector. */
  lemma DotLaws(a: Vec, b: Vec)
    ensures Dot(a, b) == Dot(b, a)
    ensures Dot(a, a) == NormSq(a) && 0.0 <= Dot(a, a)
    ensures Dot(a, a) == 0.0 <==> a == Zero
  {
    NormSqPositive(a);
  }

  /** The 2D `cross` is antisymmetric, so a vector crossed with itself is 0. */
  lemma CrossLaws(a: Vec, b: Vec)
    ensures Cross(a, b) == -Cross(b, a)
    ensures Cross(a, a) == 0.0
  {
  }

  /** The 3D `cross` is orthogonal to both of its arguments. */
  lemma Cross3Orthogonal(a: Vec3, b: Vec3)
    ensures Dot3(Cross3(a, b), a) == 0.0
    ensures Dot3(Cross3(a, b), b) == 0.0
  {
  }

  lemma ScaleNormSq(a: Vec, k: real)
    ensures NormSq(Scale(a, k)) == Sq(k) * NormSq(a)
  {
  }

  /** Dividing a non-zero vector by its length gives a unit vector pointing
      the same way. */
  lemma NormalizeLaws(sqrt: real -> real, a: Vec)
    requires IsSqrt(sqrt)
    requires a != Zero
    ensures NormSq(Normalize(sqrt, a)) == 1.0
    ensures Cross(Normalize(sqrt, a), a) == 0.0
    ensures Dot(Normalize(sqrt, a), a) == Length(sqrt, a) && 0.0 < Length(sqrt, a)
  {
    NormSqPositive(a);
    var len := Length(sqrt, a);
    SqrtPositive(sqrt, NormSq(a));
    assert Sq(len) == NormSq(a);
    var k := 1.0 / len;
    assert Normalize(sqrt, a) == Scale(a, k);
    ScaleNormSq(a, k);
    assert Sq(k) * Sq(len) == 1.0;
    assert Dot(Scale(a, k), a) == k * NormSq(a);
  }

  /** A rotation by a point `(c, s)` of the unit circle keeps dot and cross
      products, hence lengths; the rotation by `(1, 0)` is the identity. */
  lemma RotateIsometry(v: Vec, w: Vec, c: real, s: real)
    requires Sq(c) + Sq(s) == 1.0
    ensures Dot(Rotate(v, c, s), Rotate(w, c, s)) == Dot(v, w)
    ensures Cross(Rotate(v, c, s), Rotate(w, c, s)) == Cross(v, w)
    ensures NormSq(Rotate(v, c, s)) == NormSq(v)
    ensures Rotate(v, 1.0, 0.0) == v
  {
    RotateDotIdentity(v.x, v.y, w.x, w.y, c, s);
    RotateCrossIdentity(v.x, v.y, w.x, w.y, c, s);
    RotateLengthIdentity(v.x, v.y, c, s);
  }

  lemma RotateDotIdentity(a: real, b: real, p: real, q: real, c: real, s: real)
    requires Sq(c) + Sq(s) == 1.0
    ensures (a * c - b * s) * (p * c - q * s) + (a * s + b * c) * (p * s + q * c) == a * p + b * q
  {
  }

  lemma RotateCrossIdentity(a: real, b: real, p: real, q: real, c: real, s: real)
    requires Sq(c) + Sq(s) == 1.0
    ensures (a * c - b * s) * (p * s + q * c) - (a * s + b * c) * (p * c - q * s) == a * q - b * p
  {
  }

  lemma RotateLengthIdentity(a: real, b: real, c: real, s: real)
    requires Sq(c) + Sq(s) == 1.0
    ensures Sq(a * c - b * s) + Sq(a * s + b * c) == Sq(a) + Sq(b)
  {
  }

  lemma DotScale(a: Vec, b: Vec, k: real)
    ensures Dot(a, Scale(b, k)) == k * Dot(a, b)
    ensures Cross(a, Scale(b, k)) == k * Cross(a, b)
  {
  }

  /** Mirroring in a unit normal negates the normal component, keeps the
      tangential one and the length, and undoes itself. */
  lemma MirrorLaws(v: Vec, n: Vec)
    requires NormSq(n) == 1.0
    ensures Dot(Mirror(v, n), n) == -Dot(v, n)
    ensures Cross(Mirror(v, n), n) == Cross(v, n)
    ensures NormSq(Mirror(v, n)) == NormSq(v)
    ensures Mirror(Mirror(v, n), n) == v
  {
    MirrorComponents(v, n);
    MirrorInvolution(v, n);
  }

  lemma MirrorComponents(v: Vec, n: Vec)
    requires NormSq(n) == 1.0
    ensures Dot(Mirror(v, n), n) == -Dot(v, n)
    ensures Cross(Mirror(v, n), n) == Cross(v, n)
    ensures NormSq(Mirror(v, n)) == NormSq(v)
  {
    var k := 2.0 * Dot(v, n);
    assert Mirror(v, n) == Vec(v.x - n.x * k, v.y - n.y * k);
    MirrorDotIdentity(v.x, v.y, n.x, n.y);
    MirrorCrossIdentity(v.x, v.y, n.x, n.y, k);
    MirrorLengthIdentity(v.x, v.y, n.x, n.y);
  }

  lemma MirrorInvolution(v: Vec, n: Vec)
    requires NormSq(n) == 1.0
    ensures Mirror(Mirror(v, n), n) == v
  {
    var k := 2.0 * Dot(v, n);
    var m := Mirror(v, n);
    assert 2.0 * Dot(m, n) == -k by {
      MirrorComponents(v, n);
    }
    assert Mirror(m, n) == Sub(m, Scale(n, -k));
    assert Sub(Sub(v, Scale(n, k)), Scale(n, -k)) == v by {
      UndoShift(v.x, n.x, k);
      UndoShift(v.y, n.y, k);
    }
  }

  lemma UndoShift(a: real, p: real, k: real)
    ensures (a - p * k) - p * (-k) == a
  {
  }

  lemma MirrorDotIdentity(a: real, b: real, p: real, q: real)
    requires Sq(p) + Sq(q) == 1.0
    ensures (a - p * (2.0 * (a * p + b * q))) * p + (b - q * (2.0 * (a * p + b * q))) * q
            == -(a * p + b * q)
  {
    var d := a * p + b * q;
    assert (a - p * (2.0 * d)) * p + (b - q * (2.0 * d)) * q == d - 2.0 * d * (Sq(p) + Sq(q));
  }

  lemma MirrorCrossIdentity(a: real, b: real, p: real, q: real, k: real)
    ensures (a - p * k) * q - (b - q * k) * p == a * q - b * p
  {
  }

  lemma MirrorLengthIdentity(a: real, b: real, p: real, q: real)
    requires Sq(p) + Sq(q) == 1.0
    ensures Sq(a - p * (2.0 * (a * p + b * q))) + Sq(b - q * (2.0 * (a * p + b * q)))
            == Sq(a) + Sq(b)
  {
    var d := a * p + b * q;
    assert Sq(a - p * (2.0 * d)) + Sq(b - q * (2.0 * d))
           == Sq(a) + Sq(b) - 4.0 * d * d + 4.0 * d * d * (Sq(p) + Sq(q));
  }

  /** With a unit normal, `reflect` is the mirror in that normal: the
      division by `abs(n) == 1` changes nothing. */
  lemma ReflectUnitNormal(sqrt: real -> real, v: Vec, n: Vec)
    requires IsSqrt(sqrt)
    requires NormSq(n) == 1.0
    ensures Reflect(sqrt, v, n) == Mirror(v, n)
    ensures Dot(Reflect(sqrt, v, n), n) == -Dot(v, n)
    ensures Cross(Reflect(sqrt, v, n), n) == Cross(v, n)
    ensures NormSq(Reflect(sqrt, v, n)) == NormSq(v)
    ensures Reflect(sqrt, Reflect(sqrt, v, n), n) == v
  {
    SqrtOfSquare(sqrt, 1.0);
    assert Length(sqrt, n) == 1.0;
    NormSqPositive(n);
    assert Normalize(sqrt, n) == n;
    MirrorLaws(v, n);
  }

  /** A normal whose squared length is off from 1 by 0.001 or more is used
      unnormalised: `reflect` then returns `v - 2 (v.n) n` with the raw `n`. */
  lemma ReflectRawNormal(sqrt: real -> real, v: Vec, n: Vec)
    requires IsSqrt(sqrt)
    requires Abs(NormSq(n) - 1.0) >= 0.001
    ensures Reflect(sqrt, v, n) == Sub(v, Scale(n, 2.0 * Dot(v, n)))
  {
  }

  /** Inside the 0.001 band `reflect` normalises, so it keeps lengths. */
  lemma ReflectNearUnitIsIsometry(sqrt: real -> real, v: Vec, n: Vec)
    requires IsSqrt(sqrt)
    requires Abs(NormSq(n) - 1.0) < 0.001
    ensures NormSq(Reflect(sqrt, v, n)) == NormSq(v)
  {
    assert n != Zero;
    var u := Normalize(sqrt, n);
    assert NormSq(u) == 1.0 by { NormalizeLaws(sqrt, n); }
    assert Reflect(sqrt, v, n) == Mirror(v, u);
    assert NormSq(Mirror(v, u)) == NormSq(v) by { MirrorLaws(v, u); }
  }

  /** Inside the 0.001 band the code as written and the corrected
      `ReflectNormalized` agree. */
  lemma ReflectAgreesNearUnit(sqrt: real -> real, v: Vec, n: Vec)
    requires IsSqrt(sqrt)
    requires Abs(NormSq(n) - 1.0) < 0.001
    ensures n != Zero && Reflect(sqrt, v, n) == ReflectNormalized(sqrt, v, n)
  {
  }

  /** Counterexample to `reflect` keeping lengths: the normal `(2, 0)` lies
      outside the 0.001 band, is used raw, and turns `(1, 0)` into `(-7, 0)`. */
  lemma ReflectStretchesLongNormal(sqrt: real -> real)
    requires IsSqrt(sqrt)
    ensures Reflect(sqrt, Vec(1.0, 0.0), Vec(2.0, 0.0)) == Vec(-7.0, 0.0)
    ensures NormSq(Reflect(sqrt, Vec(1.0, 0.0), Vec(2.0, 0.0))) != NormSq(Vec(1.0, 0.0))
  {
    var v, n := Vec(1.0, 0.0), Vec(2.0, 0.0);
    assert NormSq(n) == 4.0;
    assert Reflect(sqrt, v, n) == Sub(v, Scale(n, 2.0 * Dot(v, n))) by {
      ReflectRawNormal(sqrt, v, n);
    }
  }

  /** The corrected `reflect` mirrors in the unit normal for every
      normal: it keeps lengths, negates the component along `n`, keeps the
      component across `n`, and applying it twice gives `v` back. */
  lemma ReflectNormalizedLaws(sqrt: real -> real, v: Vec, n: Vec)
    requires IsSqrt(sqrt)
    ensures NormSq(ReflectNormalized(sqrt, v, n)) == NormSq(v)
    ensures Dot(ReflectNormalized(sqrt, v, n), n) == -Dot(v, n)
    ensures Cross(ReflectNormalized(sqrt, v, n), n) == Cross(v, n)
    ensures ReflectNormalized(sqrt, ReflectNormalized(sqrt, v, n), n) == v
  {
    if n == Zero {
      return;
    }
    var u := Normalize(sqrt, n);
    var len := Length(sqrt, n);
    assert NormSq(u) == 1.0 && n == Scale(u, len) by {
      NormalizeLaws(sqrt, n);
      NormalizeScales(sqrt, n);
    }
    var r := Mirror(v, u);
    assert ReflectNormalized(sqrt, v, n) == r;
    assert NormSq(r) == NormSq(v) by { MirrorComponents(v, u); }
    assert Dot(r, n) == -Dot(v, n) && Cross(r, n) == Cross(v, n) by {
      MirrorScaledNormal(v, u, len);
    }
    assert ReflectNormalized(sqrt, r, n) == Mirror(r, u);
    assert Mirror(r, u) == v by { MirrorInvolution(v, u); }
  }

  /** Mirroring in a unit normal `u` also negates the component along, and
      keeps the component across, any multiple of `u`. */
  lemma MirrorScaledNormal(v: Vec, u: Vec, len: real)
    requires NormSq(u) == 1.0
    ensures Dot(Mirror(v, u), Scale(u, len)) == -Dot(v, Scale(u, len))
    ensures Cross(Mirror(v, u), Scale(u, len)) == Cross(v, Scale(u, len))
  {
    var r := Mirror(v, u);
    assert Dot(r, u) == -Dot(v, u) && Cross(r, u) == Cross(v, u) by {
      MirrorComponents(v, u);
    }
    DotScale(r, u, len);
    DotScale(v, u, len);
  }

  /** A non-zero vector is its unit vector scaled by its length. */
  lemma NormalizeScales(sqrt: real -> real, a: Vec)
    requires IsSqrt(sqrt)
    requires a != Zero
    ensures a == Scale(Normalize(sqrt, a), Length(sqrt, a))
  {
    NormSqPositive(a);
    SqrtPositive(sqrt, NormSq(a));
  }
}
