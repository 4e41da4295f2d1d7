/** The random skew used when spawning: `distribution` bends a uniform
    draw in [0, 1] by an odd power chosen by how far the draw is from the
    middle, and `generate` stretches the result over an interval. The
    draw itself (`random.random()`) is a parameter. */
module Spawn {
  import opened Analytic

  /** The exponent of the band `|x - .5|` falls in: 1 below .1, 3 below
      .2, 5 below .4 and 7 beyond. Always odd. */
  function Exponent(x: real): (n: nat)
    ensures n % 2 == 1 && 1 <= n <= 7
  {
    var d := Abs(x - 0.5);
    if d < 0.1 then 1
    else if d < 0.2 then 3
    else if d < 0.4 then 5
    else 7
  }

  /** `distribution(x)`. */
  function Distribution(x: real): real {
    (Pow(x * 2.0 - 1.0, Exponent(x)) + 1.0) / 2.0
  }

  /** `generate(min, max)` for the draw `u`. */
  function Generate(lo: real, hi: real, u: real): real {
    lo + (hi - lo) * Distribution(u)
  }

  // ---------------------------------------------------------------------
  // odd powers

  /** An odd power is an odd function, an even power an even one. */
  lemma {:induction false} PowParity(t: real, n: nat)
    ensures Pow(-t, n) == (if n % 2 == 0 then Pow(t, n) else -Pow(t, n))
  {
    if n > 0 {
      PowParity(t, n - 1);
    }
  }

  /** Powers of a number in [0, 1] stay in [0, 1]. */
  lemma {:induction false} PowUnitInterval(t: real, n: nat)
    requires 0.0 <= t <= 1.0
    ensures 0.0 <= Pow(t, n) <= 1.0
  {
    if n > 0 {
      PowUnitInterval(t, n - 1);
      MulMonotone(Pow(t, n - 1), 1.0, t);
      assert Pow(t, n) == Pow(t, n - 1) * t;
      MulMonotone(0.0, Pow(t, n - 1), t);
      assert 0.0 * t == 0.0;
      assert 1.0 * t == t;
      assert Pow(t, n - 1) * t <= t;
    }
  }

  /** Powers are monotone on the non-negative numbers. */
  lemma {:induction false} PowMonotone(a: real, b: real, n: nat)
    requires 0.0 <= a <= b
    ensures 0.0 <= Pow(a, n) <= Pow(b, n)
  {
    if n > 0 {
      PowMonotone(a, b, n - 1);
      MulMonotone(Pow(a, n - 1), Pow(b, n - 1), a);
      MulMonotone(a, b, Pow(b, n - 1));
    }
  }

  /** An odd power is increasing on all of the reals. */
  lemma OddPowMonotone(a: real, b: real, n: nat)
    requires a <= b && n % 2 == 1
    ensures Pow(a, n) <= Pow(b, n)
  {
    PowParity(a, n);
    PowParity(b, n);
    if 0.0 <= a {
      PowMonotone(a, b, n);
    } else if 0.0 <= b {
      PowMonotone(0.0, -a, n);
      PowMonotone(0.0, b, n);
    } else {
      PowMonotone(-b, -a, n);
    }
  }

  // ---------------------------------------------------------------------
  // distribution

  /** A draw in [0, 1] is mapped into [0, 1]. */
  lemma DistributionRange(x: real)
    requires 0.0 <= x <= 1.0
    ensures 0.0 <= Distribution(x) <= 1.0
  {
    var n := Exponent(x);
    OddPowMonotone(-1.0, x * 2.0 - 1.0, n);
    OddPowMonotone(x * 2.0 - 1.0, 1.0, n);
    PowParity(1.0, n);
    PowOne(n);
  }

  lemma {:induction false} PowOne(n: nat)
    ensures Pow(1.0, n) == 1.0
  {
    if n > 0 {
      PowOne(n - 1);
    }
  }

  /** The ends and the middle are fixed. */
  lemma DistributionFixedPoints()
    ensures Distribution(0.0) == 0.0 && Distribution(0.5) == 0.5 && Distribution(1.0) == 1.0
  {
    assert Exponent(0.0) == 7 && Exponent(1.0) == 7 && Exponent(0.5) == 1;
    PowOne(7);
    PowParity(1.0, 7);
  }

  /** The map is symmetric about the middle: the band depends only on
      the distance from .5 and the power is odd. */
  lemma DistributionSymmetric(x: real)
    ensures Distribution(1.0 - x) == 1.0 - Distribution(x)
  {
    assert Exponent(1.0 - x) == Exponent(x);
    assert (1.0 - x) * 2.0 - 1.0 == -(x * 2.0 - 1.0);
    PowParity(x * 2.0 - 1.0, Exponent(x));
  }

  /** Inside one band the map is increasing. */
  lemma DistributionBandMonotone(x: real, y: real)
    requires x <= y && Exponent(x) == Exponent(y)
    ensures Distribution(x) <= Distribution(y)
  {
    OddPowMonotone(x * 2.0 - 1.0, y * 2.0 - 1.0, Exponent(x));
  }

  /** Across a band edge it drops: below .6 the map is the identity, just
      above .6 the cube already pulls the value back towards the middle.
      The point .61 sits clear of the edge, so the drop does not depend on
      how `.6 - .5` rounds. */
  lemma DistributionNotMonotone()
    ensures Distribution(0.59) == 0.59 && Distribution(0.61) == 0.505324
    ensures Distribution(0.61) < Distribution(0.59)
  {
    assert Exponent(0.59) == 1 && Exponent(0.61) == 3;
    assert Pow(0.22, 3) == 0.010648;
  }

  // ---------------------------------------------------------------------
  // generate

  /** A draw in [0, 1] lands in [lo, hi]. */
  lemma GenerateInRange(lo: real, hi: real, u: real)
    requires lo <= hi && 0.0 <= u <= 1.0
    ensures lo <= Generate(lo, hi, u) <= hi
  {
    var d := Distribution(u);
    DistributionRange(u);
    Between(lo, hi, d);
  }

  /** Symmetric draws land symmetrically about the middle of the
      interval, and the middle draw on the middle. */
  lemma GenerateSymmetric(lo: real, hi: real, u: real)
    ensures Generate(lo, hi, 1.0 - u) == lo + hi - Generate(lo, hi, u)
    ensures Generate(lo, hi, 0.5) == (lo + hi) / 2.0
  {
    var d := Distribution(u);
    DistributionSymmetric(u);
    Mirror(lo, hi, d);
    DistributionFixedPoints();
  }

  lemma Mirror(lo: real, hi: real, d: real)
    ensures lo + (hi - lo) * (1.0 - d) == lo + hi - (lo + (hi - lo) * d)
  {
  }

  /** A fraction in [0, 1] of the way from `lo` to `hi` is between them. */
  lemma Between(lo: real, hi: real, d: real)
    requires lo <= hi && 0.0 <= d <= 1.0
    ensures lo <= lo + (hi - lo) * d <= hi
  {
    MulMonotone(0.0, d, hi - lo);
    MulMonotone(d, 1.0, hi - lo);
    assert 0.0 * (hi - lo) == 0.0 && 1.0 * (hi - lo) == hi - lo;
    assert (hi - lo) * d == d * (hi - lo);
  }
}
