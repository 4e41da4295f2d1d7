/** The grid arithmetic of the starfield: the view rectangle is widened to
    whole cells of the star grid before the cells are drawn. */
module Starfield {
  import opened Wrappers
  import opened Rects

  /** Python's `int()` of a float: truncation toward zero. */
  function Trunc(x: real): int {
    if 0.0 <= x then x.Floor else -((-x).Floor)
  }

  /** Truncation keeps the sign, never moves away from zero, and moves
      less than one. */
  lemma TruncBounds(x: real)
    ensures 0.0 <= x ==> 0.0 <= Trunc(x) as real <= x < Trunc(x) as real + 1.0
    ensures x < 0.0 ==> Trunc(x) as real - 1.0 < x <= Trunc(x) as real <= 0.0
  {
  }

  /** Truncation lands on `x` itself exactly when `x` is a whole number. */
  lemma TruncExact(x: real)
    ensures Trunc(x) as real == x <==> x.Floor as real == x
  {
    if x < 0.0 && x.Floor as real == x {
      assert (-x).Floor == -x.Floor;
    }
  }

  lemma TruncMonotone(a: real, b: real)
    requires a <= b
    ensures Trunc(a) <= Trunc(b)
  {
  }

  /** `a` is a whole multiple of `s`. */
  predicate IsMultiple(a: real, s: real) {
    s != 0.0 && (a / s).Floor as real == a / s
  }

  lemma MultipleOf(k: int, s: real)
    requires s != 0.0
    ensures IsMultiple(k as real * s, s)
  {
    assert k as real * s / s == k as real;
  }

  /** Snap one coordinate down (toward zero) to the grid. */
  function SnapStart(a: real, s: real): real
    requires s != 0.0
  {
    Trunc(a / s) as real * s
  }

  /** The grid line after the one `a` truncates to. */
  function SnapEnd(a: real, s: real): real
    requires s != 0.0
  {
    (Trunc(a / s) + 1) as real * s
  }

  /** `Stars.snap(rect, snapto)`: the rectangle of whole grid cells from
      the cell holding the lower corner to one past the cell holding the
      upper corner. A zero grid divides by zero. */
  function Snap(rect: Rect, snapto: real): (r: Result<Rect>)
    ensures r.Failure? <==> snapto == 0.0
    ensures r.Failure? ==> r.error == ZeroDivisionError
  {
    if snapto == 0.0 then
      Failure(ZeroDivisionError)
    else
      var startX, startY := SnapStart(rect.MinX(), snapto), SnapStart(rect.MinY(), snapto);
      var endX, endY := SnapEnd(rect.MaxX(), snapto), SnapEnd(rect.MaxY(), snapto);
      Success(Rect(startX, startY, endX - startX, endY - startY))
  }

  /** On a positive grid the cells between the truncations of `lo` and
      `hi` are at least one and a whole number of cells wide. */
  lemma SpanOnGrid(lo: real, hi: real, s: real)
    requires 0.0 < s && lo <= hi
    ensures IsMultiple(SnapStart(lo, s), s)
    ensures 0.0 < SnapEnd(hi, s) - SnapStart(lo, s)
    ensures IsMultiple(SnapEnd(hi, s) - SnapStart(lo, s), s)
  {
    var a, b := Trunc(lo / s), Trunc(hi / s);
    assert lo / s <= hi / s;
    TruncMonotone(lo / s, hi / s);
    assert SnapStart(lo, s) == a as real * s;
    MultipleOf(a, s);
    var k := b + 1 - a;
    assert SnapEnd(hi, s) - SnapStart(lo, s) == k as real * s;
    MultipleOf(k, s);
  }

  /** The snapped rectangle sits on the grid: its origin is a whole
      multiple of the grid size in each coordinate and its sides are
      positive whole multiples of it. */
  lemma SnapOnGrid(rect: Rect, s: real)
    requires 0.0 < s
    ensures var r := Snap(rect, s);
            && r.Success?
            && IsMultiple(r.value.x, s) && IsMultiple(r.value.y, s)
            && 0.0 < r.value.w && IsMultiple(r.value.w, s)
            && 0.0 < r.value.h && IsMultiple(r.value.h, s)
  {
    SpanOnGrid(rect.MinX(), rect.MaxX(), s);
    SpanOnGrid(rect.MinY(), rect.MaxY(), s);
  }

  /** The far edge is strictly beyond the rectangle, in each coordinate. */
  lemma SnapEndBeyond(a: real, s: real)
    requires 0.0 < s
    ensures a < SnapEnd(a, s)
  {
    TruncBounds(a / s);
    assert a / s < (Trunc(a / s) + 1) as real;
    assert (a / s) * s < (Trunc(a / s) + 1) as real * s;
  }

  /** Because `int()` truncates toward zero, the snapped start reaches
      down to `a` only when `a` is not negative or already on the grid:
      a negative coordinate between grid lines is snapped up, past it. */
  lemma SnapStartBelow(a: real, s: real)
    requires 0.0 < s
    ensures SnapStart(a, s) <= a <==> 0.0 <= a || IsMultiple(a, s)
  {
    var q := a / s;
    assert a == q * s;
    TruncBounds(q);
    TruncExact(q);
    assert 0.0 <= a <==> 0.0 <= q;
    if SnapStart(a, s) <= a {
      assert Trunc(q) as real <= q;
    } else {
      assert q < Trunc(q) as real;
    }
  }

  /** The snapped rectangle reaches past the upper corner of the original;
      it covers the lower corner exactly when that corner's coordinates
      are not negative or already on the grid. */
  lemma SnapCovers(rect: Rect, s: real)
    requires 0.0 < s
    ensures var r := Snap(rect, s);
            && r.Success?
            && rect.MaxX() < r.value.MaxX() && rect.MaxY() < r.value.MaxY()
            && (r.value.MinX() <= rect.MinX() <==> 0.0 <= rect.MinX() || IsMultiple(rect.MinX(), s))
            && (r.value.MinY() <= rect.MinY() <==> 0.0 <= rect.MinY() || IsMultiple(rect.MinY(), s))
  {
    SpanOnGrid(rect.MinX(), rect.MaxX(), s);
    SpanOnGrid(rect.MinY(), rect.MaxY(), s);
    SnapEndBeyond(rect.MaxX(), s);
    SnapEndBeyond(rect.MaxY(), s);
    SnapStartBelow(rect.MinX(), s);
    SnapStartBelow(rect.MinY(), s);
  }
}
