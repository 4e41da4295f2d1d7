/** `solve` of `vector_operations.py`: the intersection of two parametrised
    lines `start1 + vec1*dist1 == start2 + vec2*dist2`. The code as written
    picks its branch from `vec1.x` and `vec2.y` alone; `SolveIntended` is
    the Cramer's-rule solver its comments describe. */
module LineSolve {
  import opened Analytic
  import opened Vectors

  /** Every way a call of `solve` can end. */
  datatype SolveOutcome =
    | Solved(dist1: real, dist2: real)
    | NoSolution       // `return None`
    | ZeroLength       // `raise ValueError("Both vectors must have length")`
    | DivisionByZero   // a ZeroDivisionError from the first branch

  /** The point reached after travelling `dist` along `vec` from `start`. */
  function At(start: Vec, vec: Vec, dist: real): Vec {
    Add(start, Scale(vec, dist))
  }

  /** Both lines pass through the same point at these distances. */
  predicate Meets(start1: Vec, vec1: Vec, start2: Vec, vec2: Vec, d1: real, d2: real) {
    At(start1, vec1, d1) == At(start2, vec2, d2)
  }

  /** `solve(start1, vec1, start2, vec2)` as written, operation by operation. */
  function Solve(start1: Vec, vec1: Vec, start2: Vec, vec2: Vec): SolveOutcome {
    if (vec1.x == 0.0 && vec1.y == 0.0) || (vec2.x == 0.0 && vec2.y == 0.0) then
      ZeroLength
    else if vec2.y != 0.0 && vec1.x != 0.0 then
      FirstBranch(start1, vec1, start2, vec2)
    else if vec1.x == 0.0 && vec2.y == 0.0 then
      SecondBranch(start1, vec1, start2, vec2)
    else
      NoSolution
  }

  /** The branch taken when `vec2.y` and `vec1.x` are both non-zero. */
  function FirstBranch(start1: Vec, vec1: Vec, start2: Vec, vec2: Vec): SolveOutcome
    requires vec2.y != 0.0 && vec1.x != 0.0
  {
    var den := FirstDenominator(vec1, vec2);
    if den == 0.0 then
      DivisionByZero
    else
      var dist1 := FirstNumerator(start1, vec1, start2, vec2) / den;
      var dist2 := (vec1.y * dist1 + start1.y - start2.y) / vec2.y;
      Solved(dist1, dist2)
  }

  /** The branch taken when `vec1.x` and `vec2.y` are both zero; then
      `vec2.x` and `vec1.y` are not, since neither vector is zero. */
  function SecondBranch(start1: Vec, vec1: Vec, start2: Vec, vec2: Vec): SolveOutcome
    requires vec1.x == 0.0 && vec2.y == 0.0 && vec2.x != 0.0 && vec1.y != 0.0
  {
    var dist1 := (vec2.y * start1.x / vec2.x - vec2.y * start2.x / vec2.x + start2.y - start1.y)
                 / (vec1.y - vec2.y * vec1.x / vec2.x);
    var dist2 := (start1.x + vec1.x * dist1 - start2.x) / vec2.x;
    Solved(dist1, dist2)
  }

  /** `1 - (vec2.x/vec2.y)*vec1.y/vec1.x`, the denominator of `dist1` in
      the first branch. */
  function FirstDenominator(vec1: Vec, vec2: Vec): real
    requires vec2.y != 0.0 && vec1.x != 0.0
  {
    1.0 - (vec2.x / vec2.y) * vec1.y / vec1.x
  }

  /** The numerator of `dist1` in the first branch. */
  function FirstNumerator(start1: Vec, vec1: Vec, start2: Vec, vec2: Vec): real
    requires vec2.y != 0.0 && vec1.x != 0.0
  {
    var k := vec2.x / vec2.y;
    start2.x / vec1.x + k * start1.y / vec1.x - k * start2.y / vec1.x - start1.x / vec1.x
  }

  /** The intended solver: an error for a zero direction, `None` exactly for
      parallel directions, and otherwise the unique crossing. */
  function SolveIntended(start1: Vec, vec1: Vec, start2: Vec, vec2: Vec): SolveOutcome {
    if vec1 == Zero || vec2 == Zero then
      ZeroLength
    else if Cross(vec1, vec2) == 0.0 then
      NoSolution
    else
      var w := Sub(start2, start1);
      Solved(Cross(w, vec2) / Cross(vec1, vec2), Cross(w, vec1) / Cross(vec1, vec2))
  }

  // ---------------------------------------------------------------------
  // the intended solver

  /** Two non-parallel lines meet at exactly one pair of distances. */
  lemma CrossingIsUnique(start1: Vec, vec1: Vec, start2: Vec, vec2: Vec, d1: real, d2: real)
    requires Cross(vec1, vec2) != 0.0
    ensures Meets(start1, vec1, start2, vec2, d1, d2) <==>
              var w := Sub(start2, start1);
              d1 == Cross(w, vec2) / Cross(vec1, vec2) && d2 == Cross(w, vec1) / Cross(vec1, vec2)
  {
    var c := Cross(vec1, vec2);
    var w := Sub(start2, start1);
    var e1 := Cross(w, vec2) / c;
    var e2 := Cross(w, vec1) / c;
    // crossing the equation with vec2 isolates d1, crossing it with vec1 isolates d2
    var gap := Sub(At(start1, vec1, d1), At(start2, vec2, d2));
    assert Cross(gap, vec2) == d1 * c - Cross(w, vec2);
    assert Cross(gap, vec1) == d2 * c - Cross(w, vec1);
    if Meets(start1, vec1, start2, vec2, d1, d2) {
      assert gap == Zero;
      assert d1 * c == Cross(w, vec2);
      assert d2 * c == Cross(w, vec1);
    }
    if d1 == e1 && d2 == e2 {
      assert d1 * c == Cross(w, vec2);
      assert d2 * c == Cross(w, vec1);
      // gap is orthogonal (in the cross sense) to two independent vectors
      assert gap.x * vec2.y - gap.y * vec2.x == 0.0;
      assert gap.x * vec1.y - gap.y * vec1.x == 0.0;
      assert gap.x * c == 0.0 by {
        assert gap.x * c == vec1.x * (gap.x * vec2.y - gap.y * vec2.x)
                           - vec2.x * (gap.x * vec1.y - gap.y * vec1.x);
      }
      assert gap.y * c == 0.0 by {
        assert gap.y * c == vec1.y * (gap.x * vec2.y - gap.y * vec2.x)
                           - vec2.y * (gap.x * vec1.y - gap.y * vec1.x);
      }
      ProductZero(gap.x, c);
      ProductZero(gap.y, c);
    }
  }

  /** The intended solver fails only on a zero direction, returns `None`
      exactly for parallel lines, and otherwise returns the crossing. */
  lemma SolveIntendedCorrect(start1: Vec, vec1: Vec, start2: Vec, vec2: Vec)
    ensures SolveIntended(start1, vec1, start2, vec2).ZeroLength? <==> vec1 == Zero || vec2 == Zero
    ensures SolveIntended(start1, vec1, start2, vec2).NoSolution? <==>
              vec1 != Zero && vec2 != Zero && Cross(vec1, vec2) == 0.0
    ensures !SolveIntended(start1, vec1, start2, vec2).DivisionByZero?
    ensures SolveIntended(start1, vec1, start2, vec2).Solved? ==>
              var r := SolveIntended(start1, vec1, start2, vec2);
              Meets(start1, vec1, start2, vec2, r.dist1, r.dist2)
  {
    if vec1 != Zero && vec2 != Zero && Cross(vec1, vec2) != 0.0 {
      var r := SolveIntended(start1, vec1, start2, vec2);
      CrossingIsUnique(start1, vec1, start2, vec2, r.dist1, r.dist2);
    }
  }

  // ---------------------------------------------------------------------
  // the code as written

  /** In the first branch the denominator, scaled by `vec1.x * vec2.y`,
      is the cross product of the directions. */
  lemma FirstBranchDenominator(vec1: Vec, vec2: Vec)
    requires vec2.y != 0.0 && vec1.x != 0.0
    ensures FirstDenominator(vec1, vec2) * (vec1.x * vec2.y) == Cross(vec1, vec2)
  {
    var k := vec2.x / vec2.y;
    assert k * vec2.y == vec2.x;
    assert (k * vec1.y / vec1.x) * vec1.x == k * vec1.y;
  }

  /** In the first branch the numerator of `dist1`, scaled the same way, is
      `cross(start2 - start1, vec2)`. */
  lemma FirstBranchNumerator(start1: Vec, vec1: Vec, start2: Vec, vec2: Vec)
    requires vec2.y != 0.0 && vec1.x != 0.0
    ensures FirstNumerator(start1, vec1, start2, vec2) * (vec1.x * vec2.y)
            == Cross(Sub(start2, start1), vec2)
  {
    var k := vec2.x / vec2.y;
    var n := start2.x - start1.x + k * (start1.y - start2.y);
    assert start2.x / vec1.x + k * start1.y / vec1.x - k * start2.y / vec1.x - start1.x / vec1.x
           == n / vec1.x;
    assert (n / vec1.x) * (vec1.x * vec2.y) == n * vec2.y;
    assert k * vec2.y == vec2.x;
  }

  /** Whatever the code as written returns as a solution is the crossing of
      the two lines, and it agrees with the intended solver there. */
  lemma SolveMeetsWhenSolved(start1: Vec, vec1: Vec, start2: Vec, vec2: Vec)
    ensures Solve(start1, vec1, start2, vec2).Solved? ==>
              var r := Solve(start1, vec1, start2, vec2);
              && Cross(vec1, vec2) != 0.0
              && Meets(start1, vec1, start2, vec2, r.dist1, r.dist2)
              && SolveIntended(start1, vec1, start2, vec2) == r
  {
    var r := Solve(start1, vec1, start2, vec2);
    if r.Solved? {
      if vec2.y != 0.0 && vec1.x != 0.0 {
        FirstBranchSolved(start1, vec1, start2, vec2);
      } else {
        SecondBranchSolved(start1, vec1, start2, vec2);
      }
      CrossingIsUnique(start1, vec1, start2, vec2, r.dist1, r.dist2);
    }
  }

  /** A solution from the first branch is a crossing of non-parallel lines. */
  lemma FirstBranchSolved(start1: Vec, vec1: Vec, start2: Vec, vec2: Vec)
    requires vec2.y != 0.0 && vec1.x != 0.0
    requires FirstBranch(start1, vec1, start2, vec2).Solved?
    ensures Cross(vec1, vec2) != 0.0
    ensures var r := FirstBranch(start1, vec1, start2, vec2);
            Meets(start1, vec1, start2, vec2, r.dist1, r.dist2)
  {
    var r := FirstBranch(start1, vec1, start2, vec2);
    var den := FirstDenominator(vec1, vec2);
    var num := FirstNumerator(start1, vec1, start2, vec2);
    FirstBranchDenominator(vec1, vec2);
    FirstBranchNumerator(start1, vec1, start2, vec2);
    FirstBranchMeets(start1, vec1, start2, vec2, den, num, r.dist1, r.dist2);
  }

  /** A solution from the second branch is a crossing of non-parallel lines. */
  lemma SecondBranchSolved(start1: Vec, vec1: Vec, start2: Vec, vec2: Vec)
    requires vec1.x == 0.0 && vec2.y == 0.0 && vec2.x != 0.0 && vec1.y != 0.0
    ensures Cross(vec1, vec2) != 0.0
    ensures var r := SecondBranch(start1, vec1, start2, vec2);
            Meets(start1, vec1, start2, vec2, r.dist1, r.dist2)
  {
    var r := SecondBranch(start1, vec1, start2, vec2);
    assert Cross(vec1, vec2) == -(vec1.y * vec2.x);
    PositiveOrNegativeProduct(vec1.y, vec2.x);
    assert r.dist1 == (start2.y - start1.y) / vec1.y;
    assert start1.y + vec1.y * r.dist1 == start2.y;
    assert start1.x + vec1.x * r.dist1 == start2.x + vec2.x * r.dist2;
  }

  /** The algebra behind the first branch: once `dist1 * cross(vec1, vec2)`
      is `cross(start2 - start1, vec2)` and `dist2` is read off the y
      equation, both coordinate equations hold. */
  lemma FirstBranchMeets(start1: Vec, vec1: Vec, start2: Vec, vec2: Vec,
                         den: real, num: real, d1: real, d2: real)
    requires vec2.y != 0.0 && vec1.x != 0.0 && den != 0.0
    requires den * (vec1.x * vec2.y) == Cross(vec1, vec2)
    requires num * (vec1.x * vec2.y) == Cross(Sub(start2, start1), vec2)
    requires d1 == num / den
    requires d2 == (vec1.y * d1 + start1.y - start2.y) / vec2.y
    ensures Cross(vec1, vec2) != 0.0
    ensures Meets(start1, vec1, start2, vec2, d1, d2)
  {
    var c := Cross(vec1, vec2);
    var w := Sub(start2, start1);
    PositiveOrNegativeProduct(vec1.x, vec2.y);
    PositiveOrNegativeProduct(den, vec1.x * vec2.y);
    assert d1 * den == num;
    assert d1 * c == Cross(w, vec2) by {
      assert d1 * c == (d1 * den) * (vec1.x * vec2.y);
    }
    var yEq := vec1.y * d1 + start1.y - start2.y;
    assert vec2.y * d2 == yEq;
    assert start1.y + vec1.y * d1 == start2.y + vec2.y * d2;
    var lhs := start1.x + vec1.x * d1;
    var rhs := start2.x + vec2.x * d2;
    assert vec2.y * lhs == vec2.y * rhs by {
      assert vec2.y * rhs == vec2.y * start2.x + vec2.x * yEq;
      assert vec2.y * lhs == vec2.y * start1.x + d1 * (vec1.x * vec2.y);
      assert d1 * (vec1.x * vec2.y) == d1 * c + d1 * (vec1.y * vec2.x);
    }
    CancelFactor(lhs, rhs, vec2.y);
  }

  lemma CancelFactor(a: real, b: real, k: real)
    requires k != 0.0 && k * a == k * b
    ensures a == b
  {
    assert a == (k * a) / k;
  }

  lemma PositiveOrNegativeProduct(a: real, b: real)
    requires a != 0.0 && b != 0.0
    ensures a * b != 0.0
  {
    if a * b == 0.0 {
      ProductZero(a, b);
    }
  }

  /** The code as written returns `None` exactly when one, and only one, of
      `vec1.x == 0` and `vec2.y == 0` holds, whether or not the lines are
      parallel. */
  lemma SolveNoneExactly(start1: Vec, vec1: Vec, start2: Vec, vec2: Vec)
    ensures Solve(start1, vec1, start2, vec2).NoSolution? <==>
              vec1 != Zero && vec2 != Zero && ((vec1.x == 0.0) != (vec2.y == 0.0))
    ensures Solve(start1, vec1, start2, vec2).ZeroLength? <==> vec1 == Zero || vec2 == Zero
  {
  }

  /** The code as written divides by zero exactly for parallel directions
      that take the first branch. */
  lemma SolveDividesByZeroExactly(start1: Vec, vec1: Vec, start2: Vec, vec2: Vec)
    ensures Solve(start1, vec1, start2, vec2).DivisionByZero? <==>
              vec1.x != 0.0 && vec2.y != 0.0 && Cross(vec1, vec2) == 0.0
  {
    if vec1.x != 0.0 && vec2.y != 0.0 {
      FirstBranchDenominator(vec1, vec2);
      PositiveOrNegativeProduct(vec1.x, vec2.y);
      var den := FirstDenominator(vec1, vec2);
      if den != 0.0 {
        PositiveOrNegativeProduct(den, vec1.x * vec2.y);
        assert Cross(vec1, vec2) != 0.0;
        assert !Solve(start1, vec1, start2, vec2).DivisionByZero?;
      } else {
        assert Cross(vec1, vec2) == 0.0;
        assert Solve(start1, vec1, start2, vec2).DivisionByZero?;
      }
    }
  }

  /** Counterexample: the lines along `(0, 1)` and `(1, 1)` cross, yet the
      code as written returns `None`. */
  lemma SolveMissesCrossingLines()
    ensures Cross(Vec(0.0, 1.0), Vec(1.0, 1.0)) != 0.0
    ensures Solve(Zero, Vec(0.0, 1.0), Zero, Vec(1.0, 1.0)) == NoSolution
  {
    assert Cross(Vec(0.0, 1.0), Vec(1.0, 1.0)) == -1.0;
  }

  /** Two non-parallel lines from the same start cross at that start. */
  lemma SolveIntendedSameStart(start: Vec, vec1: Vec, vec2: Vec)
    requires vec1 != Zero && vec2 != Zero && Cross(vec1, vec2) != 0.0
    ensures SolveIntended(start, vec1, start, vec2) == Solved(0.0, 0.0)
  {
    assert Sub(start, start) == Zero;
  }

  /** The intended solver finds the crossing of the lines along `(0, 1)`
      and `(1, 1)`, at the origin. */
  lemma SolveIntendedFindsCrossing()
    ensures SolveIntended(Zero, Vec(0.0, 1.0), Zero, Vec(1.0, 1.0)) == Solved(0.0, 0.0)
  {
    assert Cross(Vec(0.0, 1.0), Vec(1.0, 1.0)) == -1.0;
    SolveIntendedSameStart(Zero, Vec(0.0, 1.0), Vec(1.0, 1.0));
  }

  /** Counterexample: parallel directions `(1, 1)` and `(2, 2)` reach the
      first branch and divide by zero instead of returning `None`. */
  lemma SolveDividesOnParallelLines()
    ensures Solve(Zero, Vec(1.0, 1.0), Vec(0.0, 1.0), Vec(2.0, 2.0)) == DivisionByZero
    ensures SolveIntended(Zero, Vec(1.0, 1.0), Vec(0.0, 1.0), Vec(2.0, 2.0)) == NoSolution
  {
  }

  /** The one call the game makes, `solve(c, (-d.y, d.x), v, d)` with a unit
      direction `d`, always lands in a solving branch, never divides by
      zero, and yields the signed distance of `c` from the line through `v`
      along `d` and the travel along `d` to the foot of the perpendicular. */
  lemma SolvePerpendicular(c: Vec, v: Vec, d: Vec)
    requires NormSq(d) == 1.0
    ensures Solve(c, Perp(d), v, d) == Solved(Cross(d, Sub(v, c)), -Dot(Sub(v, c), d))
    ensures SolveIntended(c, Perp(d), v, d) == Solve(c, Perp(d), v, d)
  {
    NormSqPositive(d);
    var w := Sub(v, c);
    assert Cross(Perp(d), d) == -1.0;
    SolveIntendedCorrect(c, Perp(d), v, d);
    assert SolveIntended(c, Perp(d), v, d) == Solved(Cross(d, w), -Dot(w, d));
    SolveMeetsWhenSolved(c, Perp(d), v, d);
    SolveDividesByZeroExactly(c, Perp(d), v, d);
    SolveNoneExactly(c, Perp(d), v, d);
  }
}
