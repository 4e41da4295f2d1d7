# Space adventure: a Dafny model of the game's physics and input core

The game is a small 2D space game for the Pythonista `scene` framework.
A ship flies among planets. It is pulled by their gravity, pushed by its
thrust and turned by two rotation buttons. When any of eleven sample
points on its hull enters a planet, the point is traced back to the planet's
surface. The ship then gets an impulse along the surface normal, a spin from
the torque of that impulse, and a correction back to the surface. Eleven
frames of contact in a row count as a landing.

This project models that core over exact reals:

- the vector helpers (`dot`, `cross`, `rotate`, `reflect`, `solve`);
- the ship's movement, moment of inertia, hull and collision samples;
- the frame update, the contact response and the landing streak;
- the celestials' mass, radius, gravity and hit test;
- the star grid snapping and the `Path` cursor;
- the spawn skew `distribution`/`generate`;
- the camera's scale and zoom easing;
- the touch-to-button state machine.

Python's exceptions become `Result.Failure` with the exception kind
(`ValueError`, `ZeroDivisionError`, or `TypeError` for unpacking a `None`).
`None` becomes `Option.None`. The game is written for Python 2 (it uses the
`print` statement), and the model follows Python 2's semantics: in
particular a negative base raised to the fractional power `1/3` raises
`ValueError`, where Python 3 would return a complex number.

Dafny's reals have no square root, cube root, sine or cosine. The model
takes `sqrt`, `cbrt` and `cosSin` (angle to `(cos, sin)`) as function
parameters. The ghost predicates `IsSqrt`, `IsCbrt` and `IsCosSin` state the
only facts the proofs use about them. `pi` is a positive parameter.

Modules, in dependency order:

| module | file | models |
|---|---|---|
| `Wrappers` | wrappers.dfy | `Option`, `Result`, the exception kinds |
| `Analytic` | analytic.dfy | squares, powers, and the root/trig parameters |
| `Vectors` | vectors.dfy | `vector_operations.py` except `solve` |
| `LineSolve` | solve.dfy | `solve` as written and as intended |
| `Rects` | rects.dfy | the `scene` rectangle's extremes and centre |
| `Motion` | movement.dfy | `Movement` |
| `Hull` | hull.dfy | `get_vertices`, `get_collision`, the moment of inertia |
| `Celestials` | celestials.dfy | `Celestial` |
| `Starfield` | starfield.dfy | `Stars.snap` |
| `Paths` | path.dfy | `Path` |
| `Kinematics` | kinematics.dfy | `Ship.update` |
| `Contact` | contact.dfy | the contact response inside `drawobject` |
| `Ships` | ship.dfy | `Ship`'s state, callbacks, collision scan, landing streak, the frame |
| `Spawn` | spawn.dfy | `distribution`, `generate` |
| `Camera` | camera.dfy | `scale`, the view rectangle, the zoom easing |
| `Contexts` | contexts.dfy | `Button`, `GameContext` |

## Model

| member | source | states |
|---|---|---|
| Vectors.DotLaws | vector_operations.py:4-6 | `dot` is symmetric; a vector dotted with itself is its squared length, never negative, and zero only for the zero vector |
| Vectors.CrossOf | vector_operations.py:8-17 | two 2D vectors give their scalar cross product; two 3D vectors give a vector orthogonal to both; mixed argument types give `None` |
| Vectors.CrossLaws | vector_operations.py:14-15 | the 2D cross product is antisymmetric and zero for a vector with itself |
| Vectors.Cross3Orthogonal | vector_operations.py:16-17 | the 3D cross product is orthogonal to both arguments |
| Vectors.RotateIsometry | vector_operations.py:19-22 | rotating by a point of the unit circle keeps dot and cross products and lengths; rotating by `(1, 0)` is the identity |
| Vectors.NormalizeLaws | vector_operations.py:26 | `n / abs(n)` of a non-zero vector has unit length and points the same way as `n` |
| Vectors.ReflectUnitNormal | vector_operations.py:24-29 | with a unit normal, `reflect` mirrors: it negates the normal component, keeps the tangential one and the length, and undoes itself |
| Vectors.ReflectRawNormal | vector_operations.py:25-29 | a normal whose squared length is 0.001 or more away from 1 is used without normalising |
| Vectors.ReflectNearUnitIsIsometry | vector_operations.py:25-26 | inside the 0.001 band `reflect` normalises and keeps lengths |
| Vectors.ReflectAgreesNearUnit | vector_operations.py:25-29 | inside the 0.001 band `reflect` as written agrees with the corrected reflection |
| Vectors.ReflectStretchesLongNormal | vector_operations.py:25-29 | the normal `(2, 0)` turns `(1, 0)` into `(-7, 0)`, so `reflect` as written does not keep lengths |
| Vectors.ReflectNormalizedLaws | vector_operations.py:24-29 | the corrected reflection, which normalises every non-zero normal and leaves `v` alone for the zero normal, keeps lengths, negates the normal component, keeps the tangential one and undoes itself |
| LineSolve.SolveNoneExactly | vector_operations.py:53-63 | `solve` raises `ValueError` exactly for a zero direction; it returns `None` exactly when one, but not both, of `vec1.x` and `vec2.y` is zero, whether or not the lines are parallel |
| LineSolve.SolveDividesByZeroExactly | vector_operations.py:56-57 | `solve` divides by zero exactly for parallel directions with `vec1.x` and `vec2.y` both non-zero |
| LineSolve.SolveMeetsWhenSolved | vector_operations.py:56-64 | every pair of distances `solve` returns puts both lines through one point, and the lines are not parallel |
| LineSolve.FirstBranchSolved | vector_operations.py:56-58 | a result of the first branch is the crossing of non-parallel lines |
| LineSolve.SecondBranchSolved | vector_operations.py:59-61 | the second branch always returns the crossing of non-parallel lines |
| LineSolve.SolveMissesCrossingLines | vector_operations.py:56-63 | the lines along `(0, 1)` and `(1, 1)` cross, yet `solve` returns `None` |
| LineSolve.SolveDividesOnParallelLines | vector_operations.py:56-57 | the parallel directions `(1, 1)` and `(2, 2)` divide by zero instead of returning `None` |
| LineSolve.CrossingIsUnique | vector_operations.py:31-44 | two non-parallel lines meet at exactly one pair of distances, given by Cramer's rule |
| LineSolve.SolveIntendedCorrect | vector_operations.py:31-64 | the corrected solver fails only on a zero direction, returns `None` exactly for parallel lines, and otherwise returns the crossing |
| LineSolve.SolvePerpendicular | vehicles.py:219-222 | the game's call `solve(cpos, rvec, v, vec)` with a unit `vec` never fails, and gives the signed distance of the centre from the line and the distance along it to the foot of the perpendicular; the corrected solver gives the same answer there |
| Hull.VerticesFormSquare | vehicles.py:122-145 | the six vertices are two triangles sharing a diagonal of a square of side 100, with edges at right angles, centred on the position |
| Hull.CollisionIsRigid | vehicles.py:146-155 | each collision point is the position plus its sample's offset, rotated by the angle: the samples move rigidly with the ship |
| Hull.InertiaInAnyPose | vehicles.py:75-80 | the moment of inertia of the samples about the position is `mass / 11 * 21755` in every pose |
| Hull.ShipInertiaConstant | vehicles.py:75-80 | the constructor's moment of inertia is the positive constant 217550/11 |
| Hull.OffsetsNormSq | vehicles.py:152 | the squared offsets of the eleven samples from the centre add up to 21755 |
| Ships.NewShipLaws | vehicles.py:55-80 | a new ship is at rest where it is put, its streak is empty, and its moment of inertia is 217550/11 |
| Ships.MovementRoundTrip | vehicles.py:156-164 | `set_movement(give_movement())` changes nothing, and `give_movement` returns what `set_movement` stored; nothing else is changed |
| Ships.AccelerateLaws | vehicles.py:84-89 | pressing thrust sets `accelerating` and resets the streak but keeps the planet landed on; releasing only clears the flag |
| Ships.RotationLaws | vehicles.py:90-99 | holding a rotation button sets the angular acceleration to ±0.003; releasing either sets it to 0 even while the other is held; nothing else changes |
| Kinematics.SpinDriven | vehicles.py:172-178 | with rotation input the spin changes by exactly the input, unless the result is below the 0.0001 cut-off |
| Kinematics.SpinFriction | vehicles.py:172-178 | without input the spin moves towards 0 by `min(abs(v), .005)` and never crosses it; it stops exactly when `abs(v) < .0051` |
| Kinematics.CoastStops | vehicles.py:172-178 | without input any spin stops for good after `abs(v) / .005` frames |
| Kinematics.ThrustMagnitude | vehicles.py:181-182 | the thrust has magnitude 0.1 and points straight up at angle 0 |
| Kinematics.AddForcesFails | vehicles.py:183-184 | summing the gravity of the celestials fails, by dividing by zero, exactly when one sits at the ship's position |
| Kinematics.AddForcesShift | vehicles.py:183-184 | the starting sum only shifts the summed gravity |
| Kinematics.UpdateSteps | vehicles.py:165-187 | the frame fails exactly when a celestial sits at the old position; otherwise spin, angle, thrust at the new angle, gravity at the old position, velocity and then position are updated in that order |
| Kinematics.UpdateIgnoresOldAcceleration | vehicles.py:180 | the incoming acceleration plays no part in the frame |
| Kinematics.UpdateFreeFlight | vehicles.py:165-187 | without celestials or thrust the velocity is kept and the position advances by it |
| Contact.ToUnitLaws | vehicles.py:214-216 | `vec / abs(vec)` fails exactly on the zero vector and otherwise is the unit vector along it |
| Contact.SurfaceSolved | vehicles.py:222-224 | for a point inside a celestial the back-tracing never fails, and it lands at a distance along the motion given by the perpendicular and the half chord |
| Contact.SurfacePointLaws | vehicles.py:214-224 | the back-traced contact point lies on the celestial's circle, on the line of motion through `v`, behind `v` |
| Contact.BounceAgreesWithReflect | vehicles.py:231-234 | with a unit normal the bounce computed with the corrected reflection equals `reflect` as written |
| Contact.DeltaVLaws | vehicles.py:232-241 | the bounce is the incoming motion mirrored at the surface, as fast as the ship; a fast ship sizes the impulse by the damped bounce, a slow one by its speed; never negative |
| Contact.SpinLaw | vehicles.py:243-247 | the spin gains `m dv cross(normal, to_center) / m_i`; the timestep cancels |
| Contact.PushLaw | vehicles.py:250-255 | the velocity gains exactly `deltav` along the push direction; timestep and mass cancel |
| Contact.RespondLaws | vehicles.py:243-258 | the response fails exactly for a zero moment of inertia or a ship centred on the celestial; otherwise it translates the ship so that `v` sits on the contact point, pushes it `deltav` away from the centre, adds the torque's spin, and changes nothing else |
| Contact.ResolveFails | vehicles.py:210-258 | for a point inside the celestial a contact fails only by dividing by zero, exactly when the point did not move, the radius is zero, the inertia is zero, or the ship sits at the centre |
| Contact.ResolveMoves | vehicles.py:210-258 | a contact leaves the contact point on the circle behind the sample point, translates the ship by the sample point's correction, changes its velocity only outward along the centre line, and leaves acceleration, angle and angular acceleration alone |
| Ships.IndexOf | vehicles.py:210 | `verts.index(v)` is the first position holding `v` |
| Ships.IndexOfFirstHit | vehicles.py:203-211 | the first sample point inside a celestial, looked up again by value, is found at its own position, so it is paired with its own sample of the previous frame |
| Ships.ScanPlanet | vehicles.py:200-265 | every celestial is tested against the same uncorrected points; the planet reported is the last celestial hit, or nothing when none is |
| Ships.ScanMisses | vehicles.py:200-265 | a scan without contacts leaves the movement and the planet as they were |
| Ships.StreakReportsOnce | vehicles.py:274-284 | from a streak of `l` frames with nothing recorded, continued contact reports exactly once, on the frame that makes the streak 11 long, and reports the planet hit then |
| Ships.LandsOnEleventhFrame | vehicles.py:274-284 | from no streak, the eleventh frame of contact in a row, and only it, reports the landing |
| Ships.LandedStaysQuiet | vehicles.py:279-284 | once a planet is recorded, further contact reports nothing and keeps the planet |
| Ships.ThrustDoesNotRelaunchReport | vehicles.py:84-87 | thrusting while landed resets the streak but not the planet, so continued contact never reports again |
| Ships.MissResets | vehicles.py:274-278 | a frame without contact clears the streak and the planet and reports nothing |
| Ships.FlagsGateOnlyMovement | vehicles.py:259-297 | the `update` flag and the debugger's pause only decide whether `set_movement` stores the frame's movement: frames differing only in them fail together, report the same landing and keep the same streak |
| Ships.FrameReportsLastHit | vehicles.py:188-284 | the streak of a frame is fed the last celestial the new sample points touch, or nothing |
| Ships.FrozenFrameKeepsMovement | vehicles.py:296-297 | a frame with `update` false changes only the landing streak |
| Ships.FrameInFreeSpace | vehicles.py:188-297 | far from every celestial a frame is the free flight of `update`, with the streak reset and no report |
| Celestials.CalcRadius | celestials.py:89-90 | `calc_radius` fails exactly for zero density (`ZeroDivisionError`) or mass and density of opposite signs (`ValueError`) |
| Celestials.RadiusOfMass | celestials.py:86-90 | `calc_radius(calc_mass(r)) == r` for every non-negative radius |
| Celestials.MassOfRadius | celestials.py:86-90 | `calc_mass(calc_radius(m)) == m` whenever `calc_radius` succeeds |
| Celestials.Construct | celestials.py:69-79 | the constructor raises `ValueError` with neither size; one size fixes the other; both leave the body unsized; a complete body has `mass == calc_mass(radius)` |
| Celestials.ConstructRoundTrip | celestials.py:69-79 | building from a radius and rebuilding from the resulting mass gives the same body |
| Celestials.CalcForceFails | celestials.py:80-85 | `calc_force` fails, by dividing by zero, exactly when the positions coincide |
| Celestials.CalcForceAlongLine | celestials.py:80-85 | the pull points straight at the body, toward it when the masses have the same sign |
| Celestials.CalcForceInverseSquare | celestials.py:80-85 | the pull's squared magnitude times the fourth power of the distance is `(g m M)^2` |
| Celestials.WithinSquared | celestials.py:93 | the hit test `abs(p - c) <= r` agrees with the squared test |
| Celestials.FirstHit | celestials.py:92-93 | the index found is the first point inside the circle; none is found exactly when no point is inside |
| Celestials.CollisionTestRect | celestials.py:91-94 | `collision_test_rect` returns `True` exactly when some point is inside, and `None`, never `False`, otherwise |
| Starfield.TruncBounds | celestials.py:50-51 | Python's `int()` keeps the sign, never moves away from zero and moves less than one |
| Starfield.Snap | celestials.py:48-53 | `snap` fails by dividing by zero exactly for a zero grid size |
| Starfield.SnapOnGrid | celestials.py:48-53 | the snapped rectangle's origin is on the grid and its sides are positive whole multiples of the grid size |
| Starfield.SnapEndBeyond | celestials.py:51 | the far edge is strictly beyond the coordinate it was snapped from |
| Starfield.SnapStartBelow | celestials.py:50 | the snapped start reaches down to a coordinate exactly when it is not negative or already on the grid |
| Starfield.SnapCovers | celestials.py:48-53 | the snapped rectangle reaches past the upper corner, and covers the lower corner exactly when its coordinates are not negative or on the grid |
| Paths.NextPositionLooksAhead | celestials.py:113-121 | `next_position` returns what `look_next` showed just before; the cursor then sits on it and the old point is one step behind |
| Paths.AdvanceProgress | celestials.py:112-115 | after `k` calls the progress has grown by `k` steps, and the `i`-th call returned the point `i + 1` steps on |
| Paths.FromStart | celestials.py:106-115 | from a new path, `k` calls leave the progress at `k * speed` |
| Spawn.Exponent | spaceadventure.py:9-17 | the exponent is odd and between 1 and 7 |
| Spawn.DistributionRange | spaceadventure.py:8-18 | `distribution` maps [0, 1] into [0, 1] |
| Spawn.DistributionFixedPoints | spaceadventure.py:8-18 | 0, 0.5 and 1 are fixed |
| Spawn.DistributionSymmetric | spaceadventure.py:8-18 | `distribution(1 - x) == 1 - distribution(x)` |
| Spawn.DistributionBandMonotone | spaceadventure.py:8-18 | within one exponent band the map is increasing |
| Spawn.DistributionNotMonotone | spaceadventure.py:9-18 | `distribution(0.61) == 0.505324 < 0.59 == distribution(0.59)`: the map drops across the band edge at .6, with both points clear of the edge |
| Spawn.GenerateInRange | spaceadventure.py:20-22 | `generate(min, max)` lands in `[min, max]` for a draw in [0, 1] |
| Spawn.GenerateSymmetric | spaceadventure.py:20-22 | symmetric draws land symmetrically about the middle, and the middle draw on the middle |
| Camera.ScaleRect | spaceadventure.py:441-442 | `scale` fails by dividing by zero exactly for `s == 0` |
| Camera.ScaleSizeRoundTrip | spaceadventure.py:441-442 | `scale` multiplies width and height by `s`; scaling back by `1 / s` restores them |
| Camera.ViewRectCentred | spaceadventure.py:452-453 | the view rectangle is centred on the ship and `view_scale` times the screen's size |
| Camera.ZoomTargetLaws | spaceadventure.py:450 | for any non-negative speed (the game passes `abs(velocity)`) the target lies in [1.5, 3], is 3 exactly from speed 30 on, and never decreases with speed |
| Camera.EaseLaws | spaceadventure.py:451 | each frame the scale moves to between its old value and the target, exactly 1/100 of the way |
| Camera.EaseStepsDistance | spaceadventure.py:451 | after `n` frames at one target the distance left is `0.99^n` of the first |
| Camera.ZoomStaysInRange | spaceadventure.py:436-451 | from the initial 1.5, the view scale stays in [1.5, 3] whatever the speeds, so `scale` never divides by zero |
| Contexts.NewButtonDefaults | contexts.py:5-24 | a new button is unpressed, active and 80 across by default |
| Contexts.SetPressedLaws | contexts.py:41-47 | assigning `pressed` stores the value and calls back with it, even when it is unchanged; no other button changes |
| Contexts.HitButton | contexts.py:58-60 | the button found is the first in list order within half its diameter of the touch, border included; none is found exactly when the touch is on no button |
| Contexts.TouchBeganLaws | contexts.py:58-63 | a touch off every button changes nothing; one on a button records and presses the first such button with one call, and changes nothing else |
| Contexts.HitIgnoresActive | contexts.py:58-63 | an inactive button is pressed just like an active one |
| Contexts.TouchEndedLaws | contexts.py:64-67 | ending a recorded touch releases its button with one call and forgets the touch; ending any other touch changes nothing |
| Contexts.TapRestoresTouches | contexts.py:58-67 | a tap on a button presses and releases it and leaves the touch map as it was |
| Contexts.TwoTouchesOneButton | contexts.py:58-67 | with two touches on one button, ending either releases the button while the other stays recorded |

## Left out

- Drawing: the textures, flames, stars, `Button.draw`, debug lines and points, and `imageanalysis.py`. They produce pixels, not state.
- `valid_landing` and `landed_pos` (celestials.py:95-103): trigonometric landing code that no part of the core calls.
- `StarSection` and `Stars.draw`: seeded randomness and drawing. `snap` is modelled.
- Randomness: `generate` takes its draw as a parameter.
- The debugger's pause (vehicles.py:259-264) is the flag `pause` of `Ships.DrawObject`. It stands for "debugging is on, the debugger asks to pause, and no single-step advance is pending". The flags it sets on the game are not modelled.
- `landed_on` is not called. `Ships.DrawObject` returns the planet it would be called with.
- The `scene` types: `Rect.center`, `min_x` and `max_x` are modelled in `Rects` and `Camera.CenterAt` as the origin-and-size rectangle they describe.
- Floating point: all arithmetic is exact real arithmetic. Rounding, overflow and NaN are not modelled.
- `sqrt`, `cbrt`, `sin`, `cos` and `pi` are parameters constrained by `IsSqrt`, `IsCbrt` and `IsCosSin`.
- Identity: celestials are named by their position in the game's list. Touches are named by an identity number, and buttons by their position in the context's list.
- The button wiring in `Ship.__init__` (vehicles.py:64-67, 73) is not modelled: it only passes the callbacks to `Button`.
- `GameContext.draw`, `SpaceAdventure.setup`, `draw` and the touch forwarding are framework glue.
- The older snapshot classes duplicated inside `spaceadventure.py` are not modelled. The versions in `celestials.py`, `vehicles.py` and `contexts.py` are.
- Contexts.TouchEnded: requires that every recorded touch names a button of the list. This is the invariant `Contexts.Valid`: `NewContextValid` establishes it, and `TouchBeganLaws` and `TouchEndedLaws` preserve it. The source stores the button object itself.
- Celestials.Construct: a body given both a radius and a mass is `Unsized`. The source leaves both attributes unassigned, and any later use raises `AttributeError`.

## Findings

| source | as written | input that shows it | evidently intended | confidence | as-written member | corrected member |
|---|---|---|---|---|---|---|
| vector_operations.py:25-28 | `reflect` divides the normal by its length only when its squared length is already within 0.001 of 1, and uses any other normal unscaled | `reflect((1, 0), (2, 0))` is `(-7, 0)`, not the mirror image `(-1, 0)` | normalise every non-zero normal (the condition is inverted) | high; not executed | Vectors.ReflectStretchesLongNormal | Vectors.ReflectNormalizedLaws |
| vector_operations.py:56-63 | `solve` picks its branch from `vec1.x` and `vec2.y` alone, and returns `None` for many crossing lines | `solve((0,0), (0,1), (0,0), (1,1))` returns `None`, though the lines cross at the origin | return the crossing of every non-parallel pair, and `None` for parallel lines | high; not executed | LineSolve.SolveMissesCrossingLines | LineSolve.SolveIntendedCorrect |
| vector_operations.py:56-57 | parallel directions with `vec1.x` and `vec2.y` non-zero reach the first branch, whose denominator is then zero | `solve((0,0), (1,1), (0,1), (2,2))` raises `ZeroDivisionError` | return `None` for parallel lines, as the `else` branch's comment says | high; not executed | LineSolve.SolveDividesOnParallelLines | LineSolve.SolveIntendedCorrect |

The game is not affected by any of these. It calls `reflect` only with a unit normal, where `Vectors.ReflectAgreesNearUnit` shows the two reflections agree. It calls `solve` only with a direction and its perpendicular, where `LineSolve.SolvePerpendicular` shows the code as written always solves and agrees with the corrected solver. The contact model (`Contact.SurfacePoint`, `Contact.Bounce`) therefore uses the corrected `LineSolve.SolveIntended` and `Vectors.ReflectNormalized`, and, over exact reals, behaves exactly as the game does (`Contact.BounceAgreesWithReflect`).
