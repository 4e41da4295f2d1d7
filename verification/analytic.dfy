/** The transcendental functions the game borrows from Python's `math`
    module. Dafny's reals are exact and have no square root, cube root,
    sine or cosine, so the model receives them as parameters and states
    here the only facts about them that it relies on. */
module Analytic {

  /** The identity. `Sq` multiplies `x` by `Same(x)` rather than by `x`:
      the solver rewrites a literal `x * x` compared against zero into a
      form it then cannot reason about, while it treats `x * Same(x)` as
      an ordinary product. */
  function Same(x: real): real {
    x
  }

  function Sq(x: real): real {
    x * Same(x)
  }

  function Cube(x: real): real {
    Sq(x) * x
  }

  function Abs(x: real): real {
    if x < 0.0 then -x else x
  }

  function Min(a: real, b: real): real {
    if a < b then a else b
  }

  /** `t ** n` for a whole exponent. */
  function Pow(t: real, n: nat): real {
    if n == 0 then 1.0 else t * Pow(t, n - 1)
  }

  /** `sqrt` is the non-negative square root on the non-negative reals. */
  ghost predicate IsSqrt(sqrt: real -> real) {
    forall x :: 0.0 <= x ==> 0.0 <= sqrt(x) && Sq(sqrt(x)) == x
  }

  /** `cbrt` is the real cube root. */
  ghost predicate IsCbrt(cbrt: real -> real) {
    forall x :: Cube(cbrt(x)) == x
  }

  /** `cosSin(a)` is `(cos a, sin a)`: a point of the unit circle, and
      `(1, 0)` at angle 0. */
  ghost predicate IsCosSin(cosSin: real -> (real, real)) {
    && cosSin(0.0) == (1.0, 0.0)
    && forall a :: Sq(cosSin(a).0) + Sq(cosSin(a).1) == 1.0
  }

  /** Squaring is monotone on the non-negative reals, in both directions. */
  lemma SquareMonotone(a: real, b: real)
    requires 0.0 <= a && 0.0 <= b
    ensures a <= b <==> Sq(a) <= Sq(b)
  {
    if a <= b {
      MulMonotone(a, b, a);
      MulMonotone(a, b, b);
    } else {
      MulMonotone(b, a, b);
      assert a * b < Sq(a) by {
        PositiveProduct(a - b, a);
        assert (a - b) * a == a * a - b * a;
      }
    }
  }

  /** The square root of a square is the number itself when it is not negative. */
  lemma SqrtOfSquare(sqrt: real -> real, a: real)
    requires IsSqrt(sqrt)
    requires 0.0 <= a
    ensures sqrt(Sq(a)) == a
  {
    var b := sqrt(Sq(a));
    assert 0.0 <= b && Sq(b) == Sq(a);
    SquareMonotone(a, b);
    SquareMonotone(b, a);
  }

  /** The square root of a positive number is positive. */
  lemma SqrtPositive(sqrt: real -> real, x: real)
    requires IsSqrt(sqrt)
    requires 0.0 < x
    ensures 0.0 < sqrt(x)
  {
    assert Sq(sqrt(x)) == x;
  }

  lemma MulMonotone(x: real, y: real, z: real)
    requires x <= y && 0.0 <= z
    ensures x * z <= y * z
  {
  }

  lemma PositiveProduct(x: real, y: real)
    requires 0.0 < x && 0.0 < y
    ensures 0.0 < x * y
  {
  }

  lemma Distribute(w: real, a: real, b: real)
    ensures w * (a + b) == w * a + w * b
  {
  }

  lemma SquareNonNegative(x: real)
    ensures 0.0 <= Sq(x)
  {
  }

  lemma SquareProduct(x: real, y: real)
    ensures Sq(x * y) == Sq(x) * Sq(y)
  {
  }

  lemma SquareZero(x: real)
    ensures Sq(x) == 0.0 <==> x == 0.0
  {
    if 0.0 < x {
      PositiveProduct(x, x);
    } else if x < 0.0 {
      PositiveProduct(-x, -x);
      assert (-x) * (-x) == x * x;
    }
  }

  lemma ProductZero(x: real, y: real)
    requires x * y == 0.0 && y != 0.0
    ensures x == 0.0
  {
    assert x == (x * y) / y;
  }

  /** A real number has only one real cube root. */
  lemma CubeInjective(a: real, b: real)
    requires Cube(a) == Cube(b)
    ensures a == b
  {
    // a^3 - b^3 == (a - b)(a^2 + ab + b^2), and the second factor is
    // positive unless a == b == 0.
    var q := Sq(a) + a * b + Sq(b);
    assert Cube(a) - Cube(b) == (a - b) * q;
    assert 4.0 * q == Sq(2.0 * a + b) + 3.0 * Sq(b);
    SquareZero(b);
    if q != 0.0 {
      ProductZero(a - b, q);
    } else {
      assert Sq(b) == 0.0 by { SquareNonNegative(2.0 * a + b); SquareNonNegative(b); }
      assert Sq(a) == 0.0;
      SquareZero(a);
    }
  }

  /** The cube root of a cube is the number itself. */
  lemma CbrtOfCube(cbrt: real -> real, a: real)
    requires IsCbrt(cbrt)
    ensures cbrt(Cube(a)) == a
  {
    CubeInjective(cbrt(Cube(a)), a);
  }
}
