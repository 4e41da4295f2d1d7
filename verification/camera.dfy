/** The camera of `SpaceAdventure`: the view rectangle is the screen's
    bounds scaled by `view_scale` and centred on the ship, and each frame
    `view_scale` eases towards a zoom that grows with the ship's speed. */
module Camera {
  import opened Analytic
  import opened Wrappers
  import opened Vectors
  import opened Rects

  /** `scale(rect, s)`: the size is multiplied by `s`; the origin moves
      back by the size divided by `s`, which fails for `s == 0`. */
  function ScaleRect(rect: Rect, s: real): (r: Result<Rect>)
    ensures r.Failure? <==> s == 0.0
    ensures r.Failure? ==> r.error == ZeroDivisionError
  {
    if s == 0.0 then Failure(ZeroDivisionError)
    else Success(Rect(rect.x - rect.w / s, rect.y - rect.h / s, rect.w * s, rect.h * s))
  }

  /** Scaling by `s` and then by `1 / s` gives back the size. */
  lemma ScaleSizeRoundTrip(rect: Rect, s: real)
    requires s != 0.0
    ensures var r := ScaleRect(rect, s);
            && r.Success? && r.value.w == rect.w * s && r.value.h == rect.h * s
            && ScaleRect(r.value, 1.0 / s).Success?
            && ScaleRect(r.value, 1.0 / s).value.w == rect.w
            && ScaleRect(r.value, 1.0 / s).value.h == rect.h
  {
    var r := ScaleRect(rect, s).value;
    assert r.w * (1.0 / s) == rect.w by { Cancel(rect.w, s); }
    assert r.h * (1.0 / s) == rect.h by { Cancel(rect.h, s); }
  }

  lemma Cancel(a: real, s: real)
    requires s != 0.0
    ensures (a * s) * (1.0 / s) == a
  {
  }

  /** `Rect.center(p)`: the same size, moved so that its centre is `p`. */
  function CenterAt(rect: Rect, p: Vec): Rect {
    Rect(p.x - rect.w / 2.0, p.y - rect.h / 2.0, rect.w, rect.h)
  }

  /** The view rectangle of lines 451-452: the bounds scaled by the view
      scale and centred on the ship. */
  function ViewRect(bounds: Rect, viewScale: real, shipPos: Vec): Result<Rect> {
    var scaled :- ScaleRect(bounds, viewScale);
    Success(CenterAt(scaled, shipPos))
  }

  /** The view shows the ship at its centre, `viewScale` times the size
      of the screen, wherever the scaled origin was. */
  lemma ViewRectCentred(bounds: Rect, viewScale: real, shipPos: Vec)
    requires viewScale != 0.0
    ensures var v := ViewRect(bounds, viewScale, shipPos);
            && v.Success? && v.value.Center() == shipPos
            && v.value.w == bounds.w * viewScale && v.value.h == bounds.h * viewScale
  {
  }

  // ---------------------------------------------------------------------
  // zoom

  /** The zoom aimed at: 1.5 at rest, growing by 1/20 per unit of speed,
      capped at 3. */
  function ZoomTarget(speed: real): real {
    Min(1.5 + speed / 20.0, 3.0)
  }

  /** For a speed (a length, so never negative) the target lies in
      [1.5, 3], reaches the cap exactly from speed 30 on, and never
      decreases with speed. */
  lemma ZoomTargetLaws(speed: real, faster: real)
    requires 0.0 <= speed <= faster
    ensures 1.5 <= ZoomTarget(speed) <= 3.0
    ensures ZoomTarget(speed) == 3.0 <==> 30.0 <= speed
    ensures ZoomTarget(speed) <= ZoomTarget(faster)
  {
  }

  /** One frame of easing: 1/100 of the way to the target. */
  function Ease(s: real, target: real): real {
    s + (target - s) / 100.0
  }

  /** The eased scale lies between the old scale and the target, and the
      remaining distance shrinks by exactly one hundredth. */
  lemma EaseLaws(s: real, target: real)
    ensures s <= target ==> s <= Ease(s, target) <= target
    ensures target <= s ==> target <= Ease(s, target) <= s
    ensures target - Ease(s, target) == (target - s) * 0.99
  {
  }

  /** `n` frames at a constant target. */
  function EaseSteps(s: real, target: real, n: nat): real
    decreases n
  {
    if n == 0 then s else EaseSteps(Ease(s, target), target, n - 1)
  }

  /** After `n` frames at a constant target the distance left is the
      initial distance times 0.99 to the `n`. */
  lemma {:induction false} EaseStepsDistance(s: real, target: real, n: nat)
    ensures target - EaseSteps(s, target, n) == (target - s) * Pow(0.99, n)
    decreases n
  {
    if n > 0 {
      EaseStepsDistance(Ease(s, target), target, n - 1);
      assert target - Ease(s, target) == (target - s) * 0.99;
      assert (target - s) * 0.99 * Pow(0.99, n - 1) == (target - s) * Pow(0.99, n);
    }
  }

  /** The view scale over frames with the given ship speeds. */
  function Zoom(s: real, speeds: seq<real>): real
    decreases |speeds|
  {
    if |speeds| == 0 then s else Zoom(Ease(s, ZoomTarget(speeds[0])), speeds[1..])
  }

  /** Starting anywhere in [1.5, 3], the view scale stays in [1.5, 3]
      whatever the ship's speeds; in particular it is never zero, so
      scaling the view never divides by zero. */
  lemma {:induction false} ZoomStaysInRange(s: real, speeds: seq<real>)
    requires 1.5 <= s <= 3.0
    requires forall k :: 0 <= k < |speeds| ==> 0.0 <= speeds[k]
    ensures 1.5 <= Zoom(s, speeds) <= 3.0
    decreases |speeds|
  {
    if |speeds| > 0 {
      var t := ZoomTarget(speeds[0]);
      ZoomTargetLaws(speeds[0], speeds[0]);
      EaseLaws(s, t);
      ZoomStaysInRange(Ease(s, t), speeds[1..]);
    }
  }
}
