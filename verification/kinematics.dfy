/** `Ship.update`: one frame of motion. The spin is advanced with a
    clamped linear friction, the angle by the new spin, the acceleration
    is rebuilt from thrust and gravity at the old position, and then
    velocity and position take a semi-implicit Euler step. */
module Kinematics {
  import opened Analytic
  import opened Wrappers
  import opened Vectors
  import opened Motion
  import opened Celestials
  import opened Hull

  /** How much spin friction removes per frame when no rotation is held. */
  const Friction: real := 0.005

  /** A spin smaller than this in magnitude stops. */
  const SpinCutoff: real := 0.0001

  /** The ship's `thrust_force` and `rotate_force`. */
  const ThrustForce: real := 0.1
  const RotateForce: real := 0.003

  // ---------------------------------------------------------------------
  // spin

  /** `abs(v) / v` for non-zero `v`. */
  function Sign(v: real): real
    requires v != 0.0
  {
    if v < 0.0 then -1.0 else 1.0
  }

  /** The new angular velocity: the angular acceleration is added; with no
      rotation input, friction takes away `min(|v|, Friction)` toward 0;
      then anything smaller than `SpinCutoff` becomes exactly 0. */
  function SpinStep(aVelocity: real, aAcceleration: real): real {
    var v := aVelocity + aAcceleration;
    var v' := if aAcceleration == 0.0 && v != 0.0 then v + -Sign(v) * Min(Abs(v), Friction) else v;
    if Abs(v') < SpinCutoff then 0.0 else v'
  }

  /** With a rotation input the spin changes by exactly the input, unless
      the result is below the cut-off. */
  lemma SpinDriven(v: real, a: real)
    requires a != 0.0
    ensures SpinStep(v, a) == (if Abs(v + a) < SpinCutoff then 0.0 else v + a)
  {
  }

  /** With no rotation input the spin moves toward 0 by
      `min(|v|, Friction)` and never crosses it; it stops altogether
      exactly when `|v| < Friction + SpinCutoff`. */
  lemma SpinFriction(v: real)
    ensures var w := SpinStep(v, 0.0);
            && (w == 0.0 <==> Abs(v) < Friction + SpinCutoff)
            && (w != 0.0 ==> Abs(w) == Abs(v) - Friction)
            && 0.0 <= w * v
            && Abs(w) <= Abs(v)
  {
    var w := SpinStep(v, 0.0);
    if w != 0.0 {
      assert (0.0 < v ==> w == v - Friction) && (v < 0.0 ==> w == v + Friction);
      if 0.0 < v {
        PositiveProduct(w, v);
      } else {
        PositiveProduct(-w, -v);
      }
    }
  }

  /** The spin after `n` frames without rotation input. */
  function Coast(v: real, n: nat): real
    decreases n
  {
    if n == 0 then v else Coast(SpinStep(v, 0.0), n - 1)
  }

  /** Without input, any spin comes to rest for good once `n` frames of
      friction could have removed it. */
  lemma {:induction false} CoastStops(v: real, n: nat)
    requires Abs(v) <= n as real * Friction
    ensures Coast(v, n) == 0.0
    decreases n
  {
    if n > 0 {
      var w := SpinStep(v, 0.0);
      SpinFriction(v);
      if w == 0.0 {
        CoastStaysAtRest(n - 1);
      } else {
        CoastStops(w, n - 1);
      }
    }
  }

  lemma {:induction false} CoastStaysAtRest(n: nat)
    ensures Coast(0.0, n) == 0.0
  {
    if n > 0 {
      assert SpinStep(0.0, 0.0) == 0.0;
      CoastStaysAtRest(n - 1);
    }
  }

  // ---------------------------------------------------------------------
  // forces

  /** `Vector2(sin(-p_a), cos(-p_a)) * thrust_force`: the thrust along the
      ship's nose at angle `p_a`. */
  function Thrust(cosSin: real -> (real, real), angle: real): Vec {
    var (c, s) := cosSin(-angle);
    Scale(Vec(s, c), ThrustForce)
  }

  /** The thrust always has magnitude `ThrustForce`, and at angle 0 points
      straight up. */
  lemma ThrustMagnitude(cosSin: real -> (real, real), angle: real)
    requires IsCosSin(cosSin)
    ensures NormSq(Thrust(cosSin, angle)) == Sq(ThrustForce)
    ensures Thrust(cosSin, 0.0) == Vec(0.0, ThrustForce)
  {
    var (c, s) := cosSin(-angle);
    assert Sq(c) + Sq(s) == 1.0;
    ScaleNormSq(Vec(s, c), ThrustForce);
    assert -0.0 == 0.0;
  }

  /** `acc += celestial.calc_force(pos, mass)` for every celestial in
      order, from `acc`; the first division by zero propagates. */
  function AddForces(sqrt: real -> real, acc: Vec, cs: seq<Celestial>, pos: Vec, mass: real): Result<Vec>
    decreases |cs|
  {
    if |cs| == 0 then Success(acc)
    else
      var f :- CalcForce(sqrt, cs[0], pos, mass);
      AddForces(sqrt, Add(acc, f), cs[1..], pos, mass)
  }

  /** Some celestial sits exactly at `pos`. */
  predicate Coincides(cs: seq<Celestial>, pos: Vec) {
    exists i :: 0 <= i < |cs| && cs[i].position == pos
  }

  lemma CoincidesCons(cs: seq<Celestial>, pos: Vec)
    requires 0 < |cs|
    ensures Coincides(cs, pos) <==> cs[0].position == pos || Coincides(cs[1..], pos)
  {
    if Coincides(cs, pos) && cs[0].position != pos {
      var i :| 0 <= i < |cs| && cs[i].position == pos;
      assert cs[1..][i - 1] == cs[i];
    }
    if Coincides(cs[1..], pos) {
      var i :| 0 <= i < |cs[1..]| && cs[1..][i].position == pos;
      assert cs[i + 1] == cs[1..][i];
    }
  }

  /** Adding the pulls fails exactly when some celestial sits at the
      position, whatever the starting sum, and then by dividing by zero. */
  lemma {:induction false} AddForcesFails(sqrt: real -> real, acc: Vec, cs: seq<Celestial>, pos: Vec, mass: real)
    requires IsSqrt(sqrt)
    ensures var r := AddForces(sqrt, acc, cs, pos, mass);
            && (r.Failure? <==> Coincides(cs, pos))
            && (r.Failure? ==> r.error == ZeroDivisionError)
    decreases |cs|
  {
    if |cs| > 0 {
      var f := CalcForce(sqrt, cs[0], pos, mass);
      CalcForceFails(sqrt, cs[0], pos, mass);
      CoincidesCons(cs, pos);
      if f.Success? {
        AddForcesFails(sqrt, Add(acc, f.value), cs[1..], pos, mass);
      }
    }
  }

  /** The starting sum only shifts the result: adding the pulls to `acc`
      gives `acc` plus the pulls summed from zero. */
  lemma {:induction false} AddForcesShift(sqrt: real -> real, acc: Vec, cs: seq<Celestial>, pos: Vec, mass: real)
    ensures var r := AddForces(sqrt, acc, cs, pos, mass);
            var g := AddForces(sqrt, Zero, cs, pos, mass);
            && (r.Success? <==> g.Success?)
            && (r.Success? ==> r.value == Add(acc, g.value))
    decreases |cs|
  {
    if |cs| > 0 {
      var f := CalcForce(sqrt, cs[0], pos, mass);
      if f.Success? {
        AddForcesShift(sqrt, Add(acc, f.value), cs[1..], pos, mass);
        AddForcesShift(sqrt, Add(Zero, f.value), cs[1..], pos, mass);
      }
    }
  }

  // ---------------------------------------------------------------------
  // update

  /** `Ship.update(m)`: one frame of motion. `accelerating` is whether
      the thrust is held; the celestials are the game's, in order. */
  function Update(sqrt: real -> real, cosSin: real -> (real, real), accelerating: bool,
                  cs: seq<Celestial>, m: Movement): Result<Movement>
  {
    var aVelocity := SpinStep(m.aVelocity, m.aAcceleration);
    var aPosition := m.aPosition + aVelocity;
    var thrust := if accelerating then Thrust(cosSin, aPosition) else Zero;
    var acc :- AddForces(sqrt, thrust, cs, m.position, ShipMass);
    var velocity := Add(m.velocity, acc);
    var position := Add(m.position, velocity);
    Success(Movement(position, velocity, acc, aPosition, aVelocity, m.aAcceleration))
  }

  /** The order of the step: a frame fails exactly when a celestial sits
      at the old position; otherwise the acceleration is the thrust at
      the NEW angle plus the gravity at the OLD position, the velocity
      gains the new acceleration, the position gains the new velocity,
      the angle gains the new spin, and the angular acceleration carries
      over. */
  lemma UpdateSteps(sqrt: real -> real, cosSin: real -> (real, real), accelerating: bool,
                    cs: seq<Celestial>, m: Movement)
    requires IsSqrt(sqrt)
    ensures var r := Update(sqrt, cosSin, accelerating, cs, m);
            && (r.Failure? <==> Coincides(cs, m.position))
            && (r.Failure? ==> r.error == ZeroDivisionError)
            && (r.Success? ==>
                  var n := r.value;
                  var gravity := AddForces(sqrt, Zero, cs, m.position, ShipMass);
                  && gravity.Success?
                  && n.aVelocity == SpinStep(m.aVelocity, m.aAcceleration)
                  && n.aPosition == m.aPosition + n.aVelocity
                  && n.aAcceleration == m.aAcceleration
                  && n.acceleration == Add(if accelerating then Thrust(cosSin, n.aPosition) else Zero, gravity.value)
                  && n.velocity == Add(m.velocity, n.acceleration)
                  && n.position == Add(m.position, n.velocity))
  {
    var aPosition := m.aPosition + SpinStep(m.aVelocity, m.aAcceleration);
    var thrust := if accelerating then Thrust(cosSin, aPosition) else Zero;
    AddForcesFails(sqrt, thrust, cs, m.position, ShipMass);
    AddForcesShift(sqrt, thrust, cs, m.position, ShipMass);
  }

  /** The acceleration a movement carries in plays no part in the next
      frame: it is rebuilt from zero. */
  lemma UpdateIgnoresOldAcceleration(sqrt: real -> real, cosSin: real -> (real, real), accelerating: bool,
                                     cs: seq<Celestial>, m: Movement, a: Vec)
    ensures Update(sqrt, cosSin, accelerating, cs, m) == Update(sqrt, cosSin, accelerating, cs, m.(acceleration := a))
  {
  }

  /** Far from every celestial and without thrust, the ship coasts in a
      straight line: the velocity is kept and the position advances by
      it. */
  lemma UpdateFreeFlight(sqrt: real -> real, cosSin: real -> (real, real), m: Movement)
    ensures var r := Update(sqrt, cosSin, false, [], m);
            && r.Success?
            && r.value.acceleration == Zero
            && r.value.velocity == m.velocity
            && r.value.position == Add(m.position, m.velocity)
  {
  }
}
