/** The contact response of `Ship.drawobject`: a sample point found inside
    a celestial is traced back along its motion to the surface, and the
    ship gets an impulse along the surface normal, a spin from the torque
    of that impulse, and a position correction back to the surface. */
module Contact {
  import opened Analytic
  import opened Wrappers
  import opened Vectors
  import opened LineSolve
  import opened Motion
  import opened Celestials
  import opened Hull

  /** `deltat_for_impulse`: the time over which an impulse acts. */
  const DeltaT: real := 1.0 / 60.0

  /** `bouncespeed`: the fraction of the bounce kept by a fast contact. */
  const BounceSpeed: real := 0.6

  /** The speed above which the bounce is damped. */
  const FastContact: real := 100.0

  /** `a / abs(a)`, dividing by zero for the zero vector. */
  function ToUnit(sqrt: real -> real, a: Vec): Result<Vec> {
    var len := Length(sqrt, a);
    if len == 0.0 then Failure(ZeroDivisionError) else Success(Div(a, len))
  }

  /** Normalising fails exactly on the zero vector and otherwise gives
      the unit vector along `a`. */
  lemma ToUnitLaws(sqrt: real -> real, a: Vec)
    requires IsSqrt(sqrt)
    ensures var r := ToUnit(sqrt, a);
            && (r.Failure? <==> a == Zero)
            && (r.Failure? ==> r.error == ZeroDivisionError)
            && (r.Success? ==> a != Zero && r.value == Normalize(sqrt, a) && NormSq(r.value) == 1.0)
  {
    var r := ToUnit(sqrt, a);
    if a == Zero {
      assert Length(sqrt, a) == 0.0 by { LengthZero(sqrt, a); }
    } else {
      assert Length(sqrt, a) != 0.0 by { LengthZero(sqrt, a); }
      assert r.Success? && r.value == Div(a, Length(sqrt, a));
      assert NormSq(Normalize(sqrt, a)) == 1.0 by { NormalizeLaws(sqrt, a); }
    }
  }

  /** Unpacking the pair `solve` returns: `None` cannot be unpacked, and
      the errors `solve` raises propagate. */
  function Unpack(o: SolveOutcome): Result<(real, real)> {
    match o
    case Solved(d1, d2) => Success((d1, d2))
    case NoSolution => Failure(TypeError)
    case ZeroLength => Failure(ValueError)
    case DivisionByZero => Failure(ZeroDivisionError)
  }

  // ---------------------------------------------------------------------
  // back to the surface

  /** From the point `v` that moved along the unit vector `vec` into the
      celestial, the point where that line enters the circle:
      `solve(cpos, rvec, v, vec)` gives the distance of the line from the
      centre and the distance along it to the foot of the perpendicular,
      and half the chord is taken back from there. The corrected solver
      stands in for `solve`; on this call the two agree
      (`LineSolve.SolvePerpendicular`). */
  function SurfacePoint(sqrt: real -> real, v: Vec, vec: Vec, c: Celestial): Result<Vec> {
    var solution :- Unpack(SolveIntended(c.position, Perp(vec), v, vec));
    var (rSection, move) := solution;
    var q := Sq(c.radius) - Sq(rSection);
    if q < 0.0 then
      Failure(ValueError)
    else
      Success(Add(v, Scale(vec, move - sqrt(q))))
  }

  /** For a unit vector `d`, `w` splits into its components along `d` and
      across it. */
  lemma LagrangeIdentity(a: real, b: real, p: real, q: real)
    ensures Sq(a * p + b * q) + Sq(p * b - q * a) == (Sq(a) + Sq(b)) * (Sq(p) + Sq(q))
  {
  }

  lemma SplitAlongUnit(w: Vec, d: Vec)
    requires NormSq(d) == 1.0
    ensures NormSq(w) == Sq(Dot(w, d)) + Sq(Cross(d, w))
  {
    LagrangeIdentity(w.x, w.y, d.x, d.y);
  }

  /** Moving `t` along a unit vector from the end of `w`. */
  lemma ShiftNormSq(w: Vec, d: Vec, t: real)
    requires NormSq(d) == 1.0
    ensures NormSq(Add(w, Scale(d, t))) == NormSq(w) + 2.0 * t * Dot(w, d) + Sq(t)
  {
    ShiftIdentity(w.x, w.y, d.x, d.y, t);
  }

  lemma ShiftIdentity(a: real, b: real, p: real, q: real, t: real)
    requires Sq(p) + Sq(q) == 1.0
    ensures Sq(a + p * t) + Sq(b + q * t) == Sq(a) + Sq(b) + 2.0 * t * (a * p + b * q) + Sq(t)
  {
    assert Sq(a + p * t) + Sq(b + q * t)
        == Sq(a) + Sq(b) + 2.0 * t * (a * p + b * q) + Sq(t) * (Sq(p) + Sq(q));
  }

  /** The back-tracing never fails for a point inside the circle: the line
      through it always meets `solve`'s perpendicular and the chord is
      real; the point found is `t` along the motion from `v`, where `t`
      is minus the component of `v - cpos` along the motion minus half
      the chord. */
  lemma SurfaceSolved(sqrt: real -> real, v: Vec, d: Vec, c: Celestial)
    requires IsSqrt(sqrt)
    requires NormSq(d) == 1.0
    requires Within(sqrt, v, c.position, c.radius)
    ensures var w := Sub(v, c.position);
            var a, b := Dot(w, d), Cross(d, w);
            var q := Sq(c.radius) - Sq(b);
            var r := SurfacePoint(sqrt, v, d, c);
            && Sq(a) <= q
            && r.Success?
            && r.value == Add(v, Scale(d, -a - sqrt(q)))
  {
    var w := Sub(v, c.position);
    var a, b := Dot(w, d), Cross(d, w);
    assert SolveIntended(c.position, Perp(d), v, d) == Solved(b, -a) by {
      SolvePerpendicular(c.position, v, d);
    }
    assert NormSq(w) <= Sq(c.radius) by {
      WithinSquared(sqrt, v, c.position, c.radius);
    }
    assert NormSq(w) == Sq(a) + Sq(b) by { SplitAlongUnit(w, d); }
  }

  /** The back-traced point lies exactly on the circle, behind `v` on the
      line it moved along (or at `v`). */
  lemma SurfacePointLaws(sqrt: real -> real, v: Vec, d: Vec, c: Celestial)
    requires IsSqrt(sqrt)
    requires NormSq(d) == 1.0
    requires Within(sqrt, v, c.position, c.radius)
    ensures var r := SurfacePoint(sqrt, v, d, c);
            && r.Success?
            && NormSq(Sub(r.value, c.position)) == Sq(c.radius)
            && Cross(Sub(r.value, v), d) == 0.0
            && Dot(Sub(r.value, v), d) <= 0.0
  {
    var w := Sub(v, c.position);
    var a, b := Dot(w, d), Cross(d, w);
    var q := Sq(c.radius) - Sq(b);
    var h := sqrt(q);
    var t := -a - h;
    var p := Add(v, Scale(d, t));
    assert Sq(a) <= q && SurfacePoint(sqrt, v, d, c).Success? && SurfacePoint(sqrt, v, d, c).value == p by {
      SurfaceSolved(sqrt, v, d, c);
    }
    assert 0.0 <= h && Sq(h) == q by { SquareNonNegative(a); }
    BackTrace(w, d, c.radius, h);
    assert Sub(p, c.position) == Add(w, Scale(d, t));
    assert Sub(p, v) == Scale(d, t);
    DotScale(d, d, t);
  }

  /** Going back from the end of `w` along the unit vector `d` by the
      component of `w` along `d` plus half the chord reaches the circle
      of radius `r`, and does go back. */
  lemma BackTrace(w: Vec, d: Vec, r: real, h: real)
    requires NormSq(d) == 1.0
    requires 0.0 <= h && Sq(h) == Sq(r) - Sq(Cross(d, w)) && Sq(Dot(w, d)) <= Sq(h)
    ensures var t := -Dot(w, d) - h;
            && NormSq(Add(w, Scale(d, t))) == Sq(r)
            && t <= 0.0
  {
    var a, b := Dot(w, d), Cross(d, w);
    var t := -a - h;
    assert t <= 0.0 by {
      SquareMonotone(Abs(a), h);
      assert Sq(Abs(a)) == Sq(a);
    }
    assert NormSq(w) == Sq(a) + Sq(b) by { SplitAlongUnit(w, d); }
    ShiftNormSq(w, d, t);
    ChordIdentity(a, b, h, t);
  }

  lemma ChordIdentity(a: real, b: real, h: real, t: real)
    requires t == -a - h
    ensures Sq(a) + Sq(b) + 2.0 * t * a + Sq(t) == Sq(b) + Sq(h)
  {
  }

  // ---------------------------------------------------------------------
  // the impulse

  /** `reflect(vec * abs(mu.velocity), normal)`: the ship's speed sent
      along the direction of the contact and mirrored at the surface. The
      corrected reflection stands in for `reflect`; with the unit normal
      the game passes the two agree (`Vectors.ReflectAgreesNearUnit`). */
  function Bounce(sqrt: real -> real, vec: Vec, normal: Vec, velocity: Vec): Vec
    requires IsSqrt(sqrt)
  {
    ReflectNormalized(sqrt, Scale(vec, Length(sqrt, velocity)), normal)
  }

  /** With the unit normal the game passes, the bounce is the same under
      `reflect` as written. */
  lemma BounceAgreesWithReflect(sqrt: real -> real, vec: Vec, normal: Vec, velocity: Vec)
    requires IsSqrt(sqrt)
    requires NormSq(normal) == 1.0
    ensures Bounce(sqrt, vec, normal, velocity) == Reflect(sqrt, Scale(vec, Length(sqrt, velocity)), normal)
  {
    ReflectAgreesNearUnit(sqrt, Scale(vec, Length(sqrt, velocity)), normal);
  }

  /** The change of speed the impulse is sized for: a fast bounce keeps
      `BounceSpeed` of itself against the current velocity, a slow one is
      the full speed. */
  function DeltaV(sqrt: real -> real, vec: Vec, normal: Vec, velocity: Vec): real
    requires IsSqrt(sqrt)
  {
    var bounce := Bounce(sqrt, vec, normal, velocity);
    if Length(sqrt, bounce) > FastContact then
      Length(sqrt, Sub(Scale(bounce, BounceSpeed), velocity))
    else
      Length(sqrt, velocity)
  }

  /** With unit vectors the bounce is the incoming motion mirrored at the
      surface: as fast as the ship, the same across the normal and
      reversed along it. So a contact is fast exactly when the ship is,
      and then the impulse is sized by the damped bounce, else by the
      speed; either way it is not negative. */
  lemma DeltaVLaws(sqrt: real -> real, vec: Vec, normal: Vec, velocity: Vec)
    requires IsSqrt(sqrt)
    requires NormSq(vec) == 1.0 && NormSq(normal) == 1.0
    ensures var speed := Length(sqrt, velocity);
            var incoming := Scale(vec, speed);
            var bounce := Bounce(sqrt, vec, normal, velocity);
            var dv := DeltaV(sqrt, vec, normal, velocity);
            && Length(sqrt, bounce) == speed
            && Dot(bounce, normal) == -Dot(incoming, normal)
            && Cross(bounce, normal) == Cross(incoming, normal)
            && (speed > FastContact ==> dv == Length(sqrt, Sub(Scale(bounce, BounceSpeed), velocity)))
            && (speed <= FastContact ==> dv == speed)
            && 0.0 <= dv
  {
    var speed := Length(sqrt, velocity);
    var incoming := Scale(vec, speed);
    var bounce := Bounce(sqrt, vec, normal, velocity);
    assert 0.0 <= speed by { LengthSquared(sqrt, velocity); }
    assert NormSq(bounce) == NormSq(incoming) && Dot(bounce, normal) == -Dot(incoming, normal)
           && Cross(bounce, normal) == Cross(incoming, normal) by {
      ReflectNormalizedLaws(sqrt, incoming, normal);
    }
    assert NormSq(incoming) == Sq(speed) by { ScaleNormSq(vec, speed); }
    assert Length(sqrt, bounce) == speed by { SqrtOfSquare(sqrt, speed); }
    LengthSquared(sqrt, Sub(Scale(bounce, BounceSpeed), velocity));
  }

  /** Lines 243-258 once the contact point, the unit normal and the
      change of speed are known: the impulse `normal * m dv / dt`, its
      torque about the ship's centre changing the spin, its magnitude
      pushing the ship away from the celestial's centre, and the ship
      moved so that `v` sits on the contact point. */
  function Respond(sqrt: real -> real, normal: Vec, deltav: real, cpos: Vec, v: Vec, point: Vec,
                   mu: Movement, inertia: real): Result<Movement>
  {
    var toCenter := Sub(mu.position, v);
    var force := Impulse(normal, deltav);
    if inertia == 0.0 then
      Failure(ZeroDivisionError)
    else
      var aVelocity := Spin(mu.aVelocity, force, toCenter, inertia);
      var forceNormal :- ToUnit(sqrt, Sub(mu.position, cpos));
      var velocity := Push(sqrt, mu.velocity, forceNormal, force);
      Success(mu.(position := Add(point, toCenter), velocity := velocity, aVelocity := aVelocity))
  }

  /** `normal * ((mass * deltav) / deltat_for_impulse)`. */
  function Impulse(normal: Vec, deltav: real): Vec {
    Scale(normal, (ShipMass * deltav) / DeltaT)
  }

  /** `a_velocity + -(cross(force, -1 * to_center) / m_i) * deltat`. */
  function Spin(aVelocity: real, force: Vec, toCenter: Vec, inertia: real): real
    requires inertia != 0.0
  {
    aVelocity + -(Cross(force, Scale(toCenter, -1.0)) / inertia) * DeltaT
  }

  /** `velocity + force_normal * ((abs(force) * deltat) / mass)`. */
  function Push(sqrt: real -> real, velocity: Vec, forceNormal: Vec, force: Vec): Vec {
    Add(velocity, Scale(forceNormal, (Length(sqrt, force) * DeltaT) / ShipMass))
  }

  /** The length of a non-negative multiple of a unit vector. */
  lemma LengthOfUnitScaled(sqrt: real -> real, u: Vec, k: real)
    requires IsSqrt(sqrt)
    requires NormSq(u) == 1.0 && 0.0 <= k
    ensures Length(sqrt, Scale(u, k)) == k
  {
    ScaleNormSq(u, k);
    SqrtOfSquare(sqrt, k);
  }

  /** `m dv cross(normal, to_center) / m_i`. */
  function SpinGain(normal: Vec, deltav: real, toCenter: Vec, inertia: real): real
    requires inertia != 0.0
  {
    ShipMass * deltav * Cross(normal, toCenter) / inertia
  }

  /** The spin gains `m dv cross(normal, to_center) / m_i`: the timestep
      cancels. */
  lemma SpinLaw(aVelocity: real, normal: Vec, deltav: real, toCenter: Vec, inertia: real)
    requires inertia != 0.0
    ensures Spin(aVelocity, Impulse(normal, deltav), toCenter, inertia)
            == aVelocity + SpinGain(normal, deltav, toCenter, inertia)
  {
    var k := (ShipMass * deltav) / DeltaT;
    var x := Cross(normal, toCenter);
    assert Cross(Impulse(normal, deltav), Scale(toCenter, -1.0)) == -(k * x) by {
      assert Cross(Scale(normal, k), Scale(toCenter, -1.0)) == -(k * x);
    }
    SpinImpulse(deltav, x, inertia);
  }

  lemma SpinImpulse(deltav: real, x: real, inertia: real)
    requires inertia != 0.0
    ensures var k := (ShipMass * deltav) / DeltaT;
            -((-(k * x)) / inertia) * DeltaT == ShipMass * deltav * x / inertia
  {
  }

  /** The velocity gains exactly `deltav` along the push direction: the
      timestep and the mass cancel. */
  lemma PushLaw(sqrt: real -> real, velocity: Vec, u: Vec, normal: Vec, deltav: real)
    requires IsSqrt(sqrt)
    requires NormSq(normal) == 1.0 && 0.0 <= deltav
    ensures Push(sqrt, velocity, u, Impulse(normal, deltav)) == Add(velocity, Scale(u, deltav))
  {
    var k := (ShipMass * deltav) / DeltaT;
    assert Length(sqrt, Impulse(normal, deltav)) == k by { LengthOfUnitScaled(sqrt, normal, k); }
    assert (k * DeltaT) / ShipMass == deltav;
  }

  /** The response fails, by dividing by zero, exactly when the moment of
      inertia is zero or the ship's centre is at the celestial's centre.
      Otherwise the position moves by the pure translation from `v` to the
      contact point; the velocity gains exactly `deltav` along the unit
      vector from the celestial's centre to the ship's; the spin gains
      `m dv cross(normal, to_center) / m_i`, in which the timestep has
      cancelled; and nothing else changes. */
  lemma RespondLaws(sqrt: real -> real, normal: Vec, deltav: real, cpos: Vec, v: Vec, point: Vec,
                    mu: Movement, inertia: real)
    requires IsSqrt(sqrt)
    requires NormSq(normal) == 1.0 && 0.0 <= deltav
    ensures var r := Respond(sqrt, normal, deltav, cpos, v, point, mu, inertia);
            && (r.Failure? <==> inertia == 0.0 || mu.position == cpos)
            && (r.Failure? ==> r.error == ZeroDivisionError)
            && (r.Success? ==>
                  && Sub(mu.position, cpos) != Zero
                  && Sub(r.value.position, mu.position) == Sub(point, v)
                  && r.value.velocity == Add(mu.velocity, Scale(Normalize(sqrt, Sub(mu.position, cpos)), deltav))
                  && r.value.aVelocity == mu.aVelocity + SpinGain(normal, deltav, Sub(mu.position, v), inertia)
                  && r.value.acceleration == mu.acceleration
                  && r.value.aPosition == mu.aPosition
                  && r.value.aAcceleration == mu.aAcceleration)
  {
    var toCenter := Sub(mu.position, v);
    var force := Impulse(normal, deltav);
    var n := ToUnit(sqrt, Sub(mu.position, cpos));
    assert n.Failure? <==> mu.position == cpos by {
      ToUnitLaws(sqrt, Sub(mu.position, cpos));
      SubZero(mu.position, cpos);
    }
    if inertia != 0.0 && mu.position != cpos {
      assert Sub(mu.position, cpos) != Zero by { SubZero(mu.position, cpos); }
      var u := Normalize(sqrt, Sub(mu.position, cpos));
      assert n.Success? && n.value == u by {
        ToUnitLaws(sqrt, Sub(mu.position, cpos));
        SubZero(mu.position, cpos);
      }
      var r := Respond(sqrt, normal, deltav, cpos, v, point, mu, inertia);
      assert r.Success? && r.value == mu.(position := Add(point, toCenter),
                                          velocity := Push(sqrt, mu.velocity, u, force),
                                          aVelocity := Spin(mu.aVelocity, force, toCenter, inertia));
      assert Spin(mu.aVelocity, force, toCenter, inertia)
             == mu.aVelocity + SpinGain(normal, deltav, toCenter, inertia) by {
        SpinLaw(mu.aVelocity, normal, deltav, toCenter, inertia);
      }
      assert Push(sqrt, mu.velocity, u, force) == Add(mu.velocity, Scale(u, deltav)) by {
        PushLaw(sqrt, mu.velocity, u, normal, deltav);
      }
      assert Sub(Add(point, toCenter), mu.position) == Sub(point, v);
    }
  }

  // ---------------------------------------------------------------------
  // one contact

  /** Lines 210-258 for the sample point `v` found inside the celestial
      `c`, which was at `oldv` a frame before: trace it back to the
      surface and apply the impulse to the movement `mu`. Gives the
      contact point and the corrected movement. */
  function Resolve(sqrt: real -> real, v: Vec, oldv: Vec, c: Celestial, mu: Movement, inertia: real)
    : Result<(Vec, Movement)>
    requires IsSqrt(sqrt)
  {
    var vec :- ToUnit(sqrt, Sub(v, oldv));
    var point :- SurfacePoint(sqrt, v, vec, c);
    var normal :- ToUnit(sqrt, Sub(point, c.position));
    var next :- Respond(sqrt, normal, DeltaV(sqrt, vec, normal, mu.velocity), c.position, v, point, mu, inertia);
    Success((point, next))
  }

  /** The contact point is at the centre exactly for a celestial of
      radius zero. */
  lemma OnCircleAtCenter(point: Vec, center: Vec, radius: real)
    requires NormSq(Sub(point, center)) == Sq(radius)
    ensures Sub(point, center) == Zero <==> radius == 0.0
  {
    NormSqPositive(Sub(point, center));
    SquareZero(radius);
  }

  /** For a point inside the celestial, a contact fails only by dividing
      by zero, and exactly when the point did not move, the celestial has
      radius zero, the moment of inertia is zero, or the ship's centre is
      at the celestial's centre. */
  lemma ResolveFails(sqrt: real -> real, v: Vec, oldv: Vec, c: Celestial, mu: Movement, inertia: real)
    requires IsSqrt(sqrt)
    requires Within(sqrt, v, c.position, c.radius)
    ensures var r := Resolve(sqrt, v, oldv, c, mu, inertia);
            && (r.Failure? <==> v == oldv || c.radius == 0.0 || inertia == 0.0 || mu.position == c.position)
            && (r.Failure? ==> r.error == ZeroDivisionError)
  {
    var u := ToUnit(sqrt, Sub(v, oldv));
    assert u.Failure? <==> v == oldv by {
      ToUnitLaws(sqrt, Sub(v, oldv));
      SubZero(v, oldv);
    }
    if v != oldv {
      var vec := u.value;
      assert NormSq(vec) == 1.0 by { ToUnitLaws(sqrt, Sub(v, oldv)); }
      var sp := SurfacePoint(sqrt, v, vec, c);
      assert sp.Success? && NormSq(Sub(sp.value, c.position)) == Sq(c.radius) by {
        SurfacePointLaws(sqrt, v, vec, c);
      }
      var point := sp.value;
      var n := ToUnit(sqrt, Sub(point, c.position));
      assert n.Failure? <==> c.radius == 0.0 by {
        ToUnitLaws(sqrt, Sub(point, c.position));
        OnCircleAtCenter(point, c.position, c.radius);
      }
      if c.radius != 0.0 {
        var normal := n.value;
        assert NormSq(normal) == 1.0 by { ToUnitLaws(sqrt, Sub(point, c.position)); }
        var dv := DeltaV(sqrt, vec, normal, mu.velocity);
        assert 0.0 <= dv by { DeltaVLaws(sqrt, vec, normal, mu.velocity); }
        RespondLaws(sqrt, normal, dv, c.position, v, point, mu, inertia);
      }
    }
  }

  /** A vector with no component across the unit `d` and none forward
      along it keeps both properties against any positive multiple of `d`. */
  lemma BehindAlong(x: Vec, d: Vec, len: real)
    requires 0.0 < len
    requires Cross(x, d) == 0.0 && Dot(x, d) <= 0.0
    ensures Cross(x, Scale(d, len)) == 0.0 && Dot(x, Scale(d, len)) <= 0.0
  {
    DotScale(x, d, len);
  }

  /** Two non-negative multiples of one vector are parallel and point the
      same way. */
  lemma SameDirection(u: Vec, a: real, b: real)
    requires 0.0 <= a && 0.0 <= b
    ensures Cross(Scale(u, a), Scale(u, b)) == 0.0
    ensures 0.0 <= Dot(Scale(u, a), Scale(u, b))
  {
    SameDirectionIdentity(u.x, u.y, a, b);
    assert 0.0 <= a * b by { MulMonotone(0.0, a, b); }
    assert 0.0 <= Sq(u.x) + Sq(u.y) by { SquareNonNegative(u.x); SquareNonNegative(u.y); }
    MulMonotone(0.0, a * b, Sq(u.x) + Sq(u.y));
  }

  lemma SameDirectionIdentity(x: real, y: real, a: real, b: real)
    ensures (x * a) * (y * b) - (y * a) * (x * b) == 0.0
    ensures (x * a) * (x * b) + (y * a) * (y * b) == a * b * (Sq(x) + Sq(y))
  {
  }

  /** A successful contact leaves the contact point on the circle, behind
      the sample point on the line it moved along; moves the ship by the
      translation from the sample point to the contact point; changes the
      velocity only along the line from the celestial's centre to the
      ship's, outward; and leaves the acceleration, the angle and the
      angular acceleration alone. */
  lemma ResolveMoves(sqrt: real -> real, v: Vec, oldv: Vec, c: Celestial, mu: Movement, inertia: real)
    requires IsSqrt(sqrt)
    requires Within(sqrt, v, c.position, c.radius)
    ensures var r := Resolve(sqrt, v, oldv, c, mu, inertia);
            r.Success? ==>
              var (point, next) := r.value;
              var dv := Sub(next.velocity, mu.velocity);
              && NormSq(Sub(point, c.position)) == Sq(c.radius)
              && Cross(Sub(point, v), Sub(v, oldv)) == 0.0
              && Dot(Sub(point, v), Sub(v, oldv)) <= 0.0
              && Sub(next.position, mu.position) == Sub(point, v)
              && Cross(dv, Sub(mu.position, c.position)) == 0.0
              && 0.0 <= Dot(dv, Sub(mu.position, c.position))
              && next.acceleration == mu.acceleration
              && next.aPosition == mu.aPosition
              && next.aAcceleration == mu.aAcceleration
  {
    var r := Resolve(sqrt, v, oldv, c, mu, inertia);
    if r.Success? {
      ResolveFails(sqrt, v, oldv, c, mu, inertia);
      assert Sub(v, oldv) != Zero by { SubZero(v, oldv); }
      var vec := Normalize(sqrt, Sub(v, oldv));
      assert ToUnit(sqrt, Sub(v, oldv)) == Success(vec) && NormSq(vec) == 1.0 by {
        ToUnitLaws(sqrt, Sub(v, oldv));
      }
      var point := SurfacePoint(sqrt, v, vec, c).value;
      assert NormSq(Sub(point, c.position)) == Sq(c.radius)
             && Cross(Sub(point, v), vec) == 0.0 && Dot(Sub(point, v), vec) <= 0.0 by {
        SurfacePointLaws(sqrt, v, vec, c);
      }
      var len := Length(sqrt, Sub(v, oldv));
      assert 0.0 < len && Sub(v, oldv) == Scale(vec, len) by {
        NormalizeScales(sqrt, Sub(v, oldv));
        LengthZero(sqrt, Sub(v, oldv));
        LengthSquared(sqrt, Sub(v, oldv));
      }
      BehindAlong(Sub(point, v), vec, len);
      assert Sub(point, c.position) != Zero by { OnCircleAtCenter(point, c.position, c.radius); }
      var normal := Normalize(sqrt, Sub(point, c.position));
      assert ToUnit(sqrt, Sub(point, c.position)) == Success(normal) && NormSq(normal) == 1.0 by {
        ToUnitLaws(sqrt, Sub(point, c.position));
      }
      var dv := DeltaV(sqrt, vec, normal, mu.velocity);
      assert 0.0 <= dv by { DeltaVLaws(sqrt, vec, normal, mu.velocity); }
      var next := Respond(sqrt, normal, dv, c.position, v, point, mu, inertia).value;
      assert r.value == (point, next);
      var w := Sub(mu.position, c.position);
      var u := Normalize(sqrt, w);
      assert Sub(next.position, mu.position) == Sub(point, v)
             && Sub(next.velocity, mu.velocity) == Scale(u, dv)
             && next.acceleration == mu.acceleration
             && next.aPosition == mu.aPosition
             && next.aAcceleration == mu.aAcceleration by {
        RespondLaws(sqrt, normal, dv, c.position, v, point, mu, inertia);
      }
      assert w == Scale(u, Length(sqrt, w)) && 0.0 <= Length(sqrt, w) by {
        NormalizeScales(sqrt, w);
        LengthSquared(sqrt, w);
      }
      SameDirection(u, dv, Length(sqrt, w));
    }
  }
}
