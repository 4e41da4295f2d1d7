/** `Ship`: its state, the callbacks its buttons drive, and the frame
    logic of `drawobject` without the drawing: move, scan the celestials
    for contacts and resolve them, keep the landing streak, and commit the
    movement unless told not to. */
module Ships {
  import opened Analytic
  import opened Wrappers
  import opened Vectors
  import opened Motion
  import opened Celestials
  import opened Hull
  import opened Kinematics
  import opened Contact

  /** `planet_land_delay`: how many frames of contact make a landing. */
  const PlanetLandDelay: nat := 10

  /** The landing streak: frames in a row with a contact, and the planet
      (an index into the game's celestials) the ship has landed on. */
  datatype Landing = Landing(landed: nat, planetLanded: Option<nat>)

  datatype Ship = Ship(
    position: Vec, velocity: Vec, acceleration: Vec, accelerating: bool,
    angle: real, vAngle: real, aAngle: real,
    landing: Landing, inertia: real)

  /** `Ship(game, x, y)`: at rest at `(x, y)`, pointing up, with the moment
      of inertia of its collision samples. */
  function NewShip(sqrt: real -> real, cosSin: real -> (real, real), x: real, y: real): Ship {
    Ship(Vec(x, y), Zero, Zero, false, 0.0, 0.0, 0.0, Landing(0, None), ShipInertia(sqrt, cosSin, x, y))
  }

  /** A new ship is at rest where it was put, with the constant positive
      moment of inertia. */
  lemma NewShipLaws(sqrt: real -> real, cosSin: real -> (real, real), x: real, y: real)
    requires IsSqrt(sqrt) && IsCosSin(cosSin)
    ensures var s := NewShip(sqrt, cosSin, x, y);
            && s.position == Vec(x, y) && s.velocity == Zero && s.vAngle == 0.0
            && s.inertia == 217550.0 / 11.0 && 0.0 < s.inertia
            && s.landing == Landing(0, None)
  {
    ShipInertiaConstant(sqrt, cosSin, x, y);
  }

  // ---------------------------------------------------------------------
  // movement

  /** `give_movement`. */
  function GiveMovement(s: Ship): Movement {
    Movement(s.position, s.velocity, s.acceleration, s.angle, s.vAngle, s.aAngle)
  }

  /** `set_movement`. */
  function SetMovement(s: Ship, m: Movement): Ship {
    s.(position := m.position, velocity := m.velocity, acceleration := m.acceleration,
       angle := m.aPosition, vAngle := m.aVelocity, aAngle := m.aAcceleration)
  }

  /** Handing the movement out and back changes nothing, a movement set is
      the one given back, and setting leaves the rest of the ship alone. */
  lemma MovementRoundTrip(s: Ship, m: Movement)
    ensures SetMovement(s, GiveMovement(s)) == s
    ensures GiveMovement(SetMovement(s, m)) == m
    ensures var t := SetMovement(s, m);
            t.accelerating == s.accelerating && t.landing == s.landing && t.inertia == s.inertia
  {
  }

  // ---------------------------------------------------------------------
  // input callbacks

  /** `accelerate(state)`: holding thrust also ends the landing streak,
      without forgetting the planet landed on. */
  function Accelerate(s: Ship, state: bool): Ship {
    if state then s.(accelerating := true, landing := s.landing.(landed := 0))
    else s.(accelerating := false)
  }

  /** `rotate_left(state)` and `rotate_right(state)`. */
  function RotateLeft(s: Ship, state: bool): Ship {
    s.(aAngle := if state then RotateForce else 0.0)
  }

  function RotateRight(s: Ship, state: bool): Ship {
    s.(aAngle := if state then -RotateForce else 0.0)
  }

  /** Holding a rotation button sets the angular acceleration to plus or
      minus `RotateForce`, whatever it was; releasing either button stops
      it even while the other is held; neither touches anything else. */
  lemma RotationLaws(s: Ship)
    ensures RotateLeft(s, true).aAngle == 0.003 && RotateRight(s, true).aAngle == -0.003
    ensures RotateLeft(RotateRight(s, true), false).aAngle == 0.0
    ensures RotateRight(RotateLeft(s, true), false).aAngle == 0.0
    ensures RotateLeft(s, true).(aAngle := s.aAngle) == s
    ensures RotateRight(s, false).(aAngle := s.aAngle) == s
  {
  }

  /** Thrust on resets the streak but keeps the planet landed on; thrust
      off changes only the flag. */
  lemma AccelerateLaws(s: Ship)
    ensures var t := Accelerate(s, true);
            t.accelerating && t.landing.landed == 0 && t.landing.planetLanded == s.landing.planetLanded
            && GiveMovement(t) == GiveMovement(s)
    ensures Accelerate(s, false) == s.(accelerating := false)
  {
  }

  // ---------------------------------------------------------------------
  // the landing streak

  /** Lines 274-284, given the celestial hit last this frame (if any):
      a contact extends the streak, a frame without one resets it and
      forgets the planet, and the first frame the streak exceeds
      `PlanetLandDelay` with no planet recorded lands on the planet hit
      and reports it (`landed_on`). */
  function StreakStep(s: Landing, planet: Option<nat>): (Landing, Option<nat>) {
    var landed := if planet.Some? then s.landed + 1 else 0;
    var planetLanded := if planet.Some? then s.planetLanded else None;
    if landed > PlanetLandDelay && planetLanded.None? then
      (Landing(landed, planet), planet)
    else
      (Landing(landed, planetLanded), None)
  }

  /** The streak over several frames and the reports made on each. */
  function Run(s: Landing, frames: seq<Option<nat>>): (Landing, seq<Option<nat>>)
    decreases |frames|
  {
    if |frames| == 0 then (s, [])
    else
      var (s1, note) := StreakStep(s, frames[0]);
      var (s2, notes) := Run(s1, frames[1..]);
      (s2, [note] + notes)
  }

  /** Every frame has a contact. */
  predicate AllHits(frames: seq<Option<nat>>) {
    forall t :: 0 <= t < |frames| ==> frames[t].Some?
  }

  /** Once a planet is recorded, further contacts report nothing. */
  lemma {:induction false} LandedStaysQuiet(s: Landing, frames: seq<Option<nat>>)
    requires s.planetLanded.Some? && AllHits(frames)
    ensures var (e, notes) := Run(s, frames);
            && |notes| == |frames|
            && (forall t :: 0 <= t < |notes| ==> notes[t].None?)
            && e.planetLanded == s.planetLanded
    decreases |frames|
  {
    if |frames| > 0 {
      var s1 := StreakStep(s, frames[0]).0;
      assert s1.planetLanded == s.planetLanded;
      LandedStaysQuiet(s1, frames[1..]);
      var notes := Run(s, frames).1;
      assert notes == [None] + Run(s1, frames[1..]).1;
    }
  }

  /** From a streak of `l` frames with nothing recorded, uninterrupted
      contact reports exactly once, on the frame that makes the streak
      `PlanetLandDelay + 1` long, and reports the planet hit on it. */
  lemma {:induction false} StreakReportsOnce(l: nat, frames: seq<Option<nat>>)
    requires l <= PlanetLandDelay && AllHits(frames)
    ensures var notes := Run(Landing(l, None), frames).1;
            var k := PlanetLandDelay - l;
            && |notes| == |frames|
            && (forall t :: 0 <= t < |notes| ==> (notes[t].Some? <==> t == k))
            && (k < |frames| ==> notes[k] == frames[k])
    decreases |frames|
  {
    if |frames| > 0 {
      var (s1, note) := StreakStep(Landing(l, None), frames[0]);
      var rest := Run(s1, frames[1..]).1;
      var notes := Run(Landing(l, None), frames).1;
      assert notes == [note] + rest;
      assert AllHits(frames[1..]);
      if l == PlanetLandDelay {
        assert note == frames[0] && s1.planetLanded.Some?;
        LandedStaysQuiet(s1, frames[1..]);
      } else {
        assert note.None? && s1 == Landing(l + 1, None);
        StreakReportsOnce(l + 1, frames[1..]);
        forall t | 0 <= t < |notes|
          ensures notes[t].Some? <==> t == PlanetLandDelay - l
        {
          if 0 < t {
            assert notes[t] == rest[t - 1];
          }
        }
      }
    }
  }

  /** A new landing: from no streak, the eleventh frame of contact in a
      row, and only it, reports the planet. */
  lemma LandsOnEleventhFrame(frames: seq<Option<nat>>)
    requires AllHits(frames)
    ensures var notes := Run(Landing(0, None), frames).1;
            && |notes| == |frames|
            && (forall t :: 0 <= t < |notes| ==> (notes[t].Some? <==> t == 10))
            && (10 < |frames| ==> notes[10] == frames[10])
  {
    StreakReportsOnce(0, frames);
  }

  /** Thrusting while landed resets the streak but not the planet, so
      staying in contact afterwards never reports a landing again. */
  lemma ThrustDoesNotRelaunchReport(s: Ship, frames: seq<Option<nat>>)
    requires s.landing.planetLanded.Some? && AllHits(frames)
    ensures var notes := Run(Accelerate(s, true).landing, frames).1;
            forall t :: 0 <= t < |notes| ==> notes[t].None?
  {
    LandedStaysQuiet(Accelerate(s, true).landing, frames);
  }

  /** A frame without contact clears the streak and the planet, and so
      allows a later landing to be reported again. */
  lemma MissResets(s: Landing)
    ensures StreakStep(s, None) == (Landing(0, None), None)
  {
  }

  // ---------------------------------------------------------------------
  // the collision scan (lines 200-265 of `drawobject`)

  /** `verts.index(p)`: the first position holding `p`. */
  function IndexOf(pts: seq<Vec>, p: Vec): (r: nat)
    requires p in pts
    ensures r < |pts| && pts[r] == p
    ensures forall k :: 0 <= k < r ==> pts[k] != p
  {
    if pts[0] == p then 0 else 1 + IndexOf(pts[1..], p)
  }

  /** The loop visits the points in order and stops at the first inside
      the celestial, so looking that point up again by value finds its own
      position: the earlier-frame point it is paired with is its own. */
  lemma IndexOfFirstHit(sqrt: real -> real, pts: seq<Vec>, c: Celestial)
    requires FirstHit(sqrt, pts, c.position, c.radius).Some?
    ensures var j := FirstHit(sqrt, pts, c.position, c.radius).value;
            IndexOf(pts, pts[j]) == j
  {
  }

  /** Some point of the frame's collision samples is inside `c`. */
  predicate Hits(sqrt: real -> real, verts: seq<Vec>, c: Celestial) {
    FirstHit(sqrt, verts, c.position, c.radius).Some?
  }

  /** The loop over the celestials from index `i` on, with the movement
      `mu` corrected by earlier contacts and the celestial last hit so far.
      Every celestial is tested against the same points `verts`, taken
      before any correction; a celestial touched by a point resolves the
      first such point, paired with the same sample of the previous frame
      (`oldVerts`), and becomes the planet hit. */
  function ScanFrom(sqrt: real -> real, verts: seq<Vec>, oldVerts: seq<Vec>, cs: seq<Celestial>,
                    i: nat, mu: Movement, planet: Option<nat>, inertia: real)
    : Result<(Movement, Option<nat>)>
    requires IsSqrt(sqrt) && |oldVerts| == |verts| && i <= |cs|
    decreases |cs| - i
  {
    if i == |cs| then
      Success((mu, planet))
    else
      match FirstHit(sqrt, verts, cs[i].position, cs[i].radius)
      case None =>
        ScanFrom(sqrt, verts, oldVerts, cs, i + 1, mu, planet, inertia)
      case Some(j) =>
        var oldv := oldVerts[IndexOf(verts, verts[j])];
        var contact :- Resolve(sqrt, verts[j], oldv, cs[i], mu, inertia);
        ScanFrom(sqrt, verts, oldVerts, cs, i + 1, contact.1, Some(i), inertia)
  }

  /** No celestial from index `i` on is hit. */
  predicate NoHitsFrom(sqrt: real -> real, verts: seq<Vec>, cs: seq<Celestial>, i: nat) {
    forall q :: i <= q < |cs| ==> !Hits(sqrt, verts, cs[q])
  }

  /** `p` is the last celestial hit. */
  predicate LastHitAt(sqrt: real -> real, verts: seq<Vec>, cs: seq<Celestial>, p: nat) {
    p < |cs| && Hits(sqrt, verts, cs[p]) && NoHitsFrom(sqrt, verts, cs, p + 1)
  }

  /** `q` is what a scan from index `i` may report having started with
      `planet`: no celestial from `i` on is hit and `q` is `planet`, or `q`
      is the last celestial hit. */
  predicate Reported(sqrt: real -> real, verts: seq<Vec>, cs: seq<Celestial>, i: nat,
                     planet: Option<nat>, q: Option<nat>) {
    || (NoHitsFrom(sqrt, verts, cs, i) && q == planet)
    || (q.Some? && i <= q.value && LastHitAt(sqrt, verts, cs, q.value))
  }

  /** A celestial that is not hit does not change the report; one that is
      hit becomes the report unless a later one is hit. */
  lemma ReportedStep(sqrt: real -> real, verts: seq<Vec>, cs: seq<Celestial>, i: nat,
                     planet: Option<nat>, q: Option<nat>)
    requires i < |cs|
    ensures (!Hits(sqrt, verts, cs[i]) && Reported(sqrt, verts, cs, i + 1, planet, q))
              ==> Reported(sqrt, verts, cs, i, planet, q)
    ensures (Hits(sqrt, verts, cs[i]) && Reported(sqrt, verts, cs, i + 1, Some(i), q))
              ==> Reported(sqrt, verts, cs, i, planet, q)
  {
    if !Hits(sqrt, verts, cs[i]) && NoHitsFrom(sqrt, verts, cs, i + 1) {
      assert NoHitsFrom(sqrt, verts, cs, i);
    }
  }

  /** The planet the scan reports: none of the celestials scanned is hit
      and the planet is the one it started with, or it is the last
      celestial hit. The corrections made along the way do not change
      which celestials are hit. */
  lemma {:induction false} ScanPlanet(sqrt: real -> real, verts: seq<Vec>, oldVerts: seq<Vec>,
                                      cs: seq<Celestial>, i: nat, mu: Movement, planet: Option<nat>,
                                      inertia: real)
    requires IsSqrt(sqrt) && |oldVerts| == |verts| && i <= |cs|
    ensures var r := ScanFrom(sqrt, verts, oldVerts, cs, i, mu, planet, inertia);
            r.Success? ==> Reported(sqrt, verts, cs, i, planet, r.value.1)
    decreases |cs| - i
  {
    var r := ScanFrom(sqrt, verts, oldVerts, cs, i, mu, planet, inertia);
    if i < |cs| && r.Success? {
      var hit := FirstHit(sqrt, verts, cs[i].position, cs[i].radius);
      ReportedStep(sqrt, verts, cs, i, planet, r.value.1);
      if hit.None? {
        assert r == ScanFrom(sqrt, verts, oldVerts, cs, i + 1, mu, planet, inertia);
        ScanPlanet(sqrt, verts, oldVerts, cs, i + 1, mu, planet, inertia);
      } else {
        var j := hit.value;
        var c := Resolve(sqrt, verts[j], oldVerts[IndexOf(verts, verts[j])], cs[i], mu, inertia);
        assert c.Success? && r == ScanFrom(sqrt, verts, oldVerts, cs, i + 1, c.value.1, Some(i), inertia);
        ScanPlanet(sqrt, verts, oldVerts, cs, i + 1, c.value.1, Some(i), inertia);
      }
    }
  }

  /** Without any contact the scan leaves the movement and the planet as
      they were. */
  lemma {:induction false} ScanMisses(sqrt: real -> real, verts: seq<Vec>, oldVerts: seq<Vec>,
                                      cs: seq<Celestial>, i: nat, mu: Movement, planet: Option<nat>,
                                      inertia: real)
    requires IsSqrt(sqrt) && |oldVerts| == |verts| && i <= |cs|
    requires NoHitsFrom(sqrt, verts, cs, i)
    ensures var r := ScanFrom(sqrt, verts, oldVerts, cs, i, mu, planet, inertia);
            r.Success? && r.value == (mu, planet)
    decreases |cs| - i
  {
    if i < |cs| {
      assert !Hits(sqrt, verts, cs[i]);
      ScanMisses(sqrt, verts, oldVerts, cs, i + 1, mu, planet, inertia);
    }
  }

  // ---------------------------------------------------------------------
  // one frame

  /** `drawobject(update)` without the drawing, for the game's celestials
      `cs`. `pause` stands for the debugger asking to stop at a contact:
      a frame with a contact then leaves the ship's movement as it was.
      The landing streak is kept in every frame, committed or not. The
      report of a new landing (`landed_on`) is returned. */
  function DrawObject(sqrt: real -> real, cosSin: real -> (real, real), s: Ship, cs: seq<Celestial>,
                      update: bool, pause: bool): Result<(Ship, Option<nat>)>
    requires IsSqrt(sqrt)
  {
    var m := GiveMovement(s);
    var mu :- Update(sqrt, cosSin, s.accelerating, cs, m);
    var scanned :- ScanFrom(sqrt, GetCollision(cosSin, mu), GetCollision(cosSin, m), cs, 0, mu, None, s.inertia);
    var (landing, note) := StreakStep(s.landing, scanned.1);
    var t := s.(landing := landing);
    var commit := update && !(pause && scanned.1.Some?);
    Success((if commit then SetMovement(t, scanned.0) else t, note))
  }

  /** The `update` flag and the debugger's pause decide only whether the
      frame's movement is stored: frames that differ in them alone fail
      together, report the same landing, keep the same streak, and differ
      in nothing but the movement. */
  lemma FlagsGateOnlyMovement(sqrt: real -> real, cosSin: real -> (real, real), s: Ship, cs: seq<Celestial>,
                              update1: bool, pause1: bool, update2: bool, pause2: bool)
    requires IsSqrt(sqrt)
    ensures var r1 := DrawObject(sqrt, cosSin, s, cs, update1, pause1);
            var r2 := DrawObject(sqrt, cosSin, s, cs, update2, pause2);
            && (r1.Success? <==> r2.Success?)
            && (r1.Success? ==>
                  && r1.value.1 == r2.value.1
                  && r1.value.0.landing == r2.value.0.landing
                  && SetMovement(r1.value.0, GiveMovement(r2.value.0)) == r2.value.0)
  {
  }

  /** A frame told not to update still keeps the landing streak, and
      leaves the ship's movement as it was. */
  lemma FrozenFrameKeepsMovement(sqrt: real -> real, cosSin: real -> (real, real), s: Ship,
                                 cs: seq<Celestial>, pause: bool)
    requires IsSqrt(sqrt)
    ensures var r := DrawObject(sqrt, cosSin, s, cs, false, pause);
            r.Success? ==> SetMovement(r.value.0, GiveMovement(s)) == r.value.0 && r.value.0.(landing := s.landing) == s
  {
  }

  /** Far from every celestial, a frame is the free flight of `update`
      with the streak reset and nothing reported. */
  lemma FrameInFreeSpace(sqrt: real -> real, cosSin: real -> (real, real), s: Ship, cs: seq<Celestial>)
    requires IsSqrt(sqrt)
    requires var mu := Update(sqrt, cosSin, s.accelerating, cs, GiveMovement(s));
             mu.Success? && NoHitsFrom(sqrt, GetCollision(cosSin, mu.value), cs, 0)
    ensures var r := DrawObject(sqrt, cosSin, s, cs, true, false);
            var mu := Update(sqrt, cosSin, s.accelerating, cs, GiveMovement(s));
            && r.Success? && r.value.1.None?
            && GiveMovement(r.value.0) == mu.value
            && r.value.0.landing == Landing(0, None)
  {
    var m := GiveMovement(s);
    var mu := Update(sqrt, cosSin, s.accelerating, cs, m).value;
    ScanMisses(sqrt, GetCollision(cosSin, mu), GetCollision(cosSin, m), cs, 0, mu, None, s.inertia);
  }

  /** The streak of a frame is fed the last celestial the frame's points
      touch, or nothing when they touch none. */
  lemma FrameReportsLastHit(sqrt: real -> real, cosSin: real -> (real, real), s: Ship,
                            cs: seq<Celestial>, update: bool, pause: bool)
    requires IsSqrt(sqrt)
    ensures var r := DrawObject(sqrt, cosSin, s, cs, update, pause);
            r.Success? ==>
              var mu := Update(sqrt, cosSin, s.accelerating, cs, GiveMovement(s));
              exists q :: && Reported(sqrt, GetCollision(cosSin, mu.value), cs, 0, None, q)
                          && (r.value.0.landing, r.value.1) == StreakStep(s.landing, q)
  {
    var r := DrawObject(sqrt, cosSin, s, cs, update, pause);
    if r.Success? {
      var m := GiveMovement(s);
      var mu := Update(sqrt, cosSin, s.accelerating, cs, m).value;
      var verts := GetCollision(cosSin, mu);
      ScanPlanet(sqrt, verts, GetCollision(cosSin, m), cs, 0, mu, None, s.inertia);
      var q := ScanFrom(sqrt, verts, GetCollision(cosSin, m), cs, 0, mu, None, s.inertia).value.1;
      assert Reported(sqrt, verts, cs, 0, None, q);
    }
  }
}
