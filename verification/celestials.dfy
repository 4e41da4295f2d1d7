/** `Celestial` of `celestials.py`: a body with a position, a radius, a
    mass and a density, which pulls on the ship with inverse-square gravity
    and is hit by any sample point within its radius. */
module Celestials {
  import opened Analytic
  import opened Wrappers
  import opened Vectors

  /** The gravitational constant `g`. */
  const G: real := 0.0003

  /** The constructor's default `density`. */
  const DefaultDensity: real := 0.01

  datatype Celestial = Celestial(position: Vec, radius: real, mass: real, density: real)

  /** What the constructor leaves behind: a complete body, or, when both a
      radius and a mass are supplied, an object on which neither attribute
      was ever assigned. */
  datatype Body =
    | Complete(celestial: Celestial)
    | Unsized(position: Vec, density: real)

  // ---------------------------------------------------------------------
  // mass and radius

  /** `calc_mass`: the volume `(4/3) pi r^3` times the density. */
  function CalcMass(pi: real, radius: real, density: real): real {
    (4.0 / 3.0) * pi * Cube(radius) * density
  }

  /** The argument of the cube root in `calc_radius`. */
  function RadiusCubed(pi: real, mass: real, density: real): real
    requires 0.0 < pi && density != 0.0
  {
    (3.0 * mass) / (4.0 * density * pi)
  }

  /** `calc_radius`: `((3 m) / (4 density pi)) ** (1/3)`. A zero density
      divides by zero; a negative base raised to the fractional power
      `1/3` is a `ValueError`. */
  function CalcRadius(cbrt: real -> real, pi: real, mass: real, density: real): (r: Result<real>)
    requires 0.0 < pi
    ensures r.Failure? <==> density == 0.0 || mass * density < 0.0
    ensures r.Failure? ==> (r.error == ZeroDivisionError <==> density == 0.0)
  {
    if density == 0.0 then
      Failure(ZeroDivisionError)
    else
      RadiusCubedSign(pi, mass, density);
      var q := RadiusCubed(pi, mass, density);
      if q < 0.0 then Failure(ValueError) else Success(cbrt(q))
  }

  /** The cube-root argument is negative exactly when mass and density
      have opposite signs. */
  lemma RadiusCubedSign(pi: real, mass: real, density: real)
    requires 0.0 < pi && density != 0.0
    ensures RadiusCubed(pi, mass, density) < 0.0 <==> mass * density < 0.0
  {
    var den := 4.0 * density * pi;
    var q := RadiusCubed(pi, mass, density);
    assert q * den == 3.0 * mass;
    // q has the sign of mass / density, hence of mass * density
    assert q * (den * density) == 3.0 * mass * density;
    assert den * density == 4.0 * pi * Sq(density);
    SquareNonNegative(density);
    SquareZero(density);
    PositiveProduct(4.0 * pi, Sq(density));
    if q < 0.0 {
      assert q * (den * density) < 0.0 by {
        PositiveProduct(-q, den * density);
      }
    } else {
      assert 0.0 <= q * (den * density) by {
        MulMonotone(0.0, q, den * density);
      }
    }
  }

  /** From a non-negative radius, `calc_radius(calc_mass(r))` gives `r`
      back. */
  lemma RadiusOfMass(cbrt: real -> real, pi: real, radius: real, density: real)
    requires IsCbrt(cbrt) && 0.0 < pi && density != 0.0 && 0.0 <= radius
    ensures CalcRadius(cbrt, pi, CalcMass(pi, radius, density), density) == Success(radius)
  {
    var m := CalcMass(pi, radius, density);
    var q := RadiusCubed(pi, m, density);
    assert q * (4.0 * density * pi) == 3.0 * m;
    assert 3.0 * m == Cube(radius) * (4.0 * density * pi);
    CancelFactor(q, Cube(radius), 4.0 * density * pi);
    assert 0.0 <= Cube(radius) by {
      SquareNonNegative(radius);
      MulMonotone(0.0, Sq(radius), radius);
    }
    CbrtOfCube(cbrt, radius);
  }

  /** A radius computed from a mass gives that mass back through
      `calc_mass`. */
  lemma MassOfRadius(cbrt: real -> real, pi: real, mass: real, density: real)
    requires IsCbrt(cbrt) && 0.0 < pi
    requires CalcRadius(cbrt, pi, mass, density).Success?
    ensures CalcMass(pi, CalcRadius(cbrt, pi, mass, density).value, density) == mass
  {
    var q := RadiusCubed(pi, mass, density);
    var r := cbrt(q);
    assert Cube(r) == q;
    assert q * (4.0 * density * pi) == 3.0 * mass;
    assert CalcMass(pi, r, density) == (q * (4.0 * density * pi)) / 3.0;
  }

  lemma CancelFactor(a: real, b: real, k: real)
    requires k != 0.0 && a * k == b * k
    ensures a == b
  {
    assert a == (a * k) / k;
  }

  /** `Celestial(x, y, radius, mass, density)`. Neither size raises
      `ValueError`; a radius alone fixes the mass; a mass alone fixes the
      radius, with `calc_radius`'s errors; both leave the body unsized.
      Every complete body satisfies `mass == calc_mass(radius)`. */
  function Construct(cbrt: real -> real, pi: real, x: real, y: real,
                     radius: Option<real>, mass: Option<real>, density: real): (r: Result<Body>)
    requires IsCbrt(cbrt) && 0.0 < pi
    ensures r.Failure? <==>
              (radius.None? && mass.None?) ||
              (radius.None? && mass.Some? && (density == 0.0 || mass.value * density < 0.0))
    ensures radius.None? && mass.None? ==> r == Failure(ValueError)
    ensures r.Success? ==> (r.value.Unsized? <==> radius.Some? && mass.Some?)
    ensures r.Success? && r.value.Complete? ==>
              var c := r.value.celestial;
              && c.position == Vec(x, y)
              && c.density == density
              && c.mass == CalcMass(pi, c.radius, density)
              && (radius.Some? ==> c.radius == radius.value)
              && (mass.Some? ==> c.mass == mass.value)
  {
    if mass.None? && radius.None? then
      Failure(ValueError)
    else if mass.None? then
      Success(Complete(Celestial(Vec(x, y), radius.value, CalcMass(pi, radius.value, density), density)))
    else if radius.None? then
      var rad :- CalcRadius(cbrt, pi, mass.value, density);
      MassOfRadius(cbrt, pi, mass.value, density);
      Success(Complete(Celestial(Vec(x, y), rad, mass.value, density)))
    else
      Success(Unsized(Vec(x, y), density))
  }

  /** Building from a radius and rebuilding from the resulting mass gives
      the same body back. */
  lemma ConstructRoundTrip(cbrt: real -> real, pi: real, x: real, y: real, radius: real, density: real)
    requires IsCbrt(cbrt) && 0.0 < pi && density != 0.0 && 0.0 <= radius
    ensures var b := Construct(cbrt, pi, x, y, Some(radius), None, density);
            && b.Success? && b.value.Complete?
            && Construct(cbrt, pi, x, y, None, Some(b.value.celestial.mass), density) == b
  {
    RadiusOfMass(cbrt, pi, radius, density);
  }

  // ---------------------------------------------------------------------
  // gravity

  /** `calc_force(other_pos, mass)`: the pull on a mass at `otherPos`,
      `g m M / d^2` along the unit vector toward the body. Coincident
      positions divide by zero. */
  function CalcForce(sqrt: real -> real, body: Celestial, otherPos: Vec, mass: real): Result<Vec> {
    var v := Sub(body.position, otherPos);
    var length := Length(sqrt, v);
    // `length ** 2` is zero exactly when `length` is
    if length == 0.0 then
      Failure(ZeroDivisionError)
    else
      Success(Pull(v, length, G * mass * body.mass))
  }

  /** `calc_force` fails, by dividing by zero, exactly when the two
      positions coincide. */
  lemma CalcForceFails(sqrt: real -> real, body: Celestial, otherPos: Vec, mass: real)
    requires IsSqrt(sqrt)
    ensures CalcForce(sqrt, body, otherPos, mass).Failure? <==> otherPos == body.position
    ensures CalcForce(sqrt, body, otherPos, mass).Failure? ==>
              CalcForce(sqrt, body, otherPos, mass).error == ZeroDivisionError
  {
    SubZero(body.position, otherPos);
    LengthZero(sqrt, Sub(body.position, otherPos));
  }

  /** `(v / length) * (gmm / length ** 2)`. */
  function Pull(v: Vec, length: real, gmm: real): Vec
    requires length != 0.0
  {
    SquareZero(length);
    Scale(Div(v, length), gmm / Sq(length))
  }

  /** The factor by which `Pull` scales `v`. */
  function PullFactor(length: real, gmm: real): real
    requires length != 0.0
  {
    SquareZero(length);
    (1.0 / length) * (gmm / Sq(length))
  }

  /** `Pull` is `v` scaled by `PullFactor`. */
  lemma PullIsScaled(v: Vec, length: real, gmm: real)
    requires length != 0.0
    ensures Pull(v, length, gmm) == Scale(v, PullFactor(length, gmm))
  {
    SquareZero(length);
    var f := gmm / Sq(length);
    assert Pull(v, length, gmm) == Scale(Div(v, length), f);
    DivThenScale(v.x, length, f);
    DivThenScale(v.y, length, f);
  }

  lemma DivThenScale(a: real, length: real, f: real)
    requires length != 0.0
    ensures (a / length) * f == a * ((1.0 / length) * f)
  {
  }

  /** The pull factor has the sign of `gmm` at a positive distance. */
  lemma PullFactorPositive(length: real, gmm: real)
    requires 0.0 < length && 0.0 < gmm
    ensures 0.0 < PullFactor(length, gmm)
  {
    SquareZero(length);
    SquareNonNegative(length);
    assert 0.0 < 1.0 / length;
    assert 0.0 < gmm / Sq(length);
    PositiveProduct(1.0 / length, gmm / Sq(length));
  }

  /** At a non-zero distance `calc_force` succeeds with the pull. */
  lemma CalcForceIsPull(sqrt: real -> real, body: Celestial, otherPos: Vec, mass: real)
    requires Length(sqrt, Sub(body.position, otherPos)) != 0.0
    ensures var v := Sub(body.position, otherPos);
            var r := CalcForce(sqrt, body, otherPos, mass);
            && r.Success?
            && r.value == Pull(v, Length(sqrt, v), G * mass * body.mass)
  {
  }

  /** At a non-zero distance `calc_force` succeeds with `v` scaled by the
      pull factor. */
  lemma CalcForceIsScaled(sqrt: real -> real, body: Celestial, otherPos: Vec, mass: real)
    requires Length(sqrt, Sub(body.position, otherPos)) != 0.0
    ensures var v := Sub(body.position, otherPos);
            var r := CalcForce(sqrt, body, otherPos, mass);
            && r.Success?
            && r.value == Scale(v, PullFactor(Length(sqrt, v), G * mass * body.mass))
  {
    var v := Sub(body.position, otherPos);
    var len := Length(sqrt, v);
    var gmm := G * mass * body.mass;
    var r := CalcForce(sqrt, body, otherPos, mass);
    assert r.Success? && r.value == Pull(v, len, gmm) by {
      CalcForceIsPull(sqrt, body, otherPos, mass);
    }
    assert Pull(v, len, gmm) == Scale(v, PullFactor(len, gmm)) by {
      PullIsScaled(v, len, gmm);
    }
  }

  /** A multiple of `v` has no component across `v`, and its component
      along `v` is the factor times the squared length. */
  lemma ScaleAlongSelf(v: Vec, a: real)
    ensures Cross(Scale(v, a), v) == 0.0
    ensures Dot(Scale(v, a), v) == a * NormSq(v)
  {
  }

  /** The pull points from `otherPos` straight at the body: it has no
      component across the line joining them, and a positive component
      along it whenever both masses have the same sign. */
  lemma CalcForceAlongLine(sqrt: real -> real, body: Celestial, otherPos: Vec, mass: real)
    requires IsSqrt(sqrt)
    requires otherPos != body.position
    ensures var v := Sub(body.position, otherPos);
            var r := CalcForce(sqrt, body, otherPos, mass);
            && r.Success?
            && Cross(r.value, v) == 0.0
            && (0.0 < mass * body.mass ==> 0.0 < Dot(r.value, v))
  {
    var v := Sub(body.position, otherPos);
    var len := Length(sqrt, v);
    assert v != Zero by { SubZero(body.position, otherPos); }
    assert 0.0 < len by {
      LengthZero(sqrt, v);
      LengthSquared(sqrt, v);
    }
    var gmm := G * mass * body.mass;
    var a := PullFactor(len, gmm);
    assert CalcForce(sqrt, body, otherPos, mass).Success? &&
           CalcForce(sqrt, body, otherPos, mass).value == Scale(v, a) by {
      CalcForceIsScaled(sqrt, body, otherPos, mass);
    }
    ScaleAlongSelf(v, a);
    if 0.0 < mass * body.mass {
      assert 0.0 < a by {
        PositiveProduct(G, mass * body.mass);
        PullFactorPositive(len, gmm);
      }
      assert 0.0 < NormSq(v) by { NormSqPositive(v); }
      PositiveProduct(a, NormSq(v));
    }
  }

  /** Inverse-square law: the squared magnitude of the pull times the
      fourth power of the distance is `(g m M)^2`. */
  lemma CalcForceInverseSquare(sqrt: real -> real, body: Celestial, otherPos: Vec, mass: real)
    requires IsSqrt(sqrt)
    requires otherPos != body.position
    ensures var v := Sub(body.position, otherPos);
            var r := CalcForce(sqrt, body, otherPos, mass);
            r.Success? && NormSq(r.value) * Sq(NormSq(v)) == Sq(G * mass * body.mass)
  {
    var v := Sub(body.position, otherPos);
    var len := Length(sqrt, v);
    assert v != Zero by { SubZero(body.position, otherPos); }
    assert len != 0.0 by { LengthZero(sqrt, v); }
    assert Sq(len) == NormSq(v) by { LengthSquared(sqrt, v); }
    var gmm := G * mass * body.mass;
    var a := PullFactor(len, gmm);
    assert CalcForce(sqrt, body, otherPos, mass).Success? &&
           CalcForce(sqrt, body, otherPos, mass).value == Scale(v, a) by {
      CalcForceIsScaled(sqrt, body, otherPos, mass);
    }
    assert NormSq(Scale(v, a)) == Sq(a) * NormSq(v) by { ScaleNormSq(v, a); }
    assert Sq(a) * NormSq(v) * Sq(NormSq(v)) == Sq(gmm) by {
      InverseSquareIdentity(a, len, gmm, NormSq(v));
    }
  }

  /** With `a` the pull factor at distance `len` and `n == len^2`:
      `a^2 n n^2 == gmm^2`. */
  lemma InverseSquareIdentity(a: real, len: real, gmm: real, n: real)
    requires len != 0.0 && a == PullFactor(len, gmm) && Sq(len) == n
    ensures Sq(a) * n * Sq(n) == Sq(gmm)
  {
    assert a * len * Sq(len) == gmm by { SquareZero(len); }
    assert Sq(a * len * Sq(len)) == Sq(a) * Sq(len) * Sq(Sq(len)) by {
      SquareProduct(a * len, Sq(len));
      SquareProduct(a, len);
    }
  }

  // ---------------------------------------------------------------------
  // collision test

  /** `abs(p - centre) <= radius`: a point inside or on a circle. */
  predicate Within(sqrt: real -> real, p: Vec, center: Vec, radius: real) {
    Length(sqrt, Sub(p, center)) <= radius
  }

  /** The distance test agrees with the squared test that needs no root. */
  lemma WithinSquared(sqrt: real -> real, p: Vec, center: Vec, radius: real)
    requires IsSqrt(sqrt)
    ensures Within(sqrt, p, center, radius) <==>
              0.0 <= radius && NormSq(Sub(p, center)) <= Sq(radius)
  {
    var d := Sub(p, center);
    LengthSquared(sqrt, d);
    if 0.0 <= radius {
      SquareMonotone(Length(sqrt, d), radius);
    }
  }

  /** The index of the first point in list order within the circle. */
  function FirstHit(sqrt: real -> real, pts: seq<Vec>, center: Vec, radius: real): (r: Option<nat>)
    ensures r.Some? ==>
              && r.value < |pts|
              && Within(sqrt, pts[r.value], center, radius)
              && forall j :: 0 <= j < r.value ==> !Within(sqrt, pts[j], center, radius)
    ensures r.None? <==> forall j :: 0 <= j < |pts| ==> !Within(sqrt, pts[j], center, radius)
  {
    if |pts| == 0 then
      None
    else if Within(sqrt, pts[0], center, radius) then
      Some(0)
    else
      match FirstHit(sqrt, pts[1..], center, radius)
      case None =>
        assert forall j :: 1 <= j < |pts| ==> pts[j] == pts[1..][j - 1];
        None
      case Some(i) =>
        assert forall j :: 1 <= j < i + 1 ==> pts[j] == pts[1..][j - 1];
        Some(i + 1)
  }

  /** `collision_test_rect(pts)`: `True` as soon as a point is within the
      radius, and `None` (never `False`) when none is. */
  method CollisionTestRect(sqrt: real -> real, body: Celestial, pts: seq<Vec>) returns (r: Option<bool>)
    ensures r.Some? ==> r.value
    ensures r.Some? <==> exists i :: 0 <= i < |pts| && Within(sqrt, pts[i], body.position, body.radius)
    ensures r.Some? <==> FirstHit(sqrt, pts, body.position, body.radius).Some?
  {
    var k := 0;
    while k < |pts|
      invariant 0 <= k <= |pts|
      invariant forall j :: 0 <= j < k ==> !Within(sqrt, pts[j], body.position, body.radius)
    {
      if Length(sqrt, Sub(pts[k], body.position)) <= body.radius {
        return Some(true);
      }
      k := k + 1;
    }
    return None;
  }
}
