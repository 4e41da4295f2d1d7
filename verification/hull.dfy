/** The ship's outline: the textured square it is drawn with and the
    eleven sample points used for collisions, both placed by the pose a
    `Movement` carries; and the moment of inertia computed from the
    sample points. */
module Hull {
  import opened Analytic
  import opened Vectors
  import opened Motion

  /** The mass of the ship. */
  const ShipMass := 10.0

  /** The side of the square the ship is drawn in. */
  const Size := 100.0

  /** The corners of the unit square re-centred on the origin and scaled
      by `Size`: lower left, lower right, upper left, upper right. */
  const Corners: seq<Vec> := [Vec(-50.0, -50.0), Vec(50.0, -50.0), Vec(-50.0, 50.0), Vec(50.0, 50.0)]

  /** Texture coordinates of the corners of the unit square. */
  const TextureCorners: seq<Vec> := [Vec(0.0, 0.0), Vec(1.0, 0.0), Vec(0.0, 1.0), Vec(1.0, 1.0)]

  /** The two triangles of the square, as indices into the corners. */
  const Triangles: seq<nat> := [0, 1, 2, 1, 2, 3]

  /** The collision samples, as fractions of the square's width and
      height from its lower-left corner. */
  const Samples: seq<Vec> := [
    Vec(0.41, 0.07), Vec(0.22, 0.09), Vec(0.62, 0.07), Vec(0.80, 0.09),
    Vec(0.95, 0.33), Vec(0.04, 0.32), Vec(0.49, 0.97), Vec(0.55, 0.95),
    Vec(0.44, 0.94), Vec(0.24, 0.64), Vec(0.78, 0.62)]

  /** Where a sample sits relative to the centre of the unrotated ship. */
  function Offset(f: Vec): Vec {
    Vec(Size * f.x - 50.0, Size * f.y - 50.0)
  }

  /** A point given relative to the ship, placed by position and by the
      rotation `(c, s)`. */
  function Place(pos: Vec, c: real, s: real, v: Vec): Vec {
    Add(pos, Rotate(v, c, s))
  }

  /** `get_vertices(m)`: the six vertices of the two triangles the ship
      is drawn with, in the pose of `m`, and their texture coordinates. */
  function GetVertices(cosSin: real -> (real, real), m: Movement): (seq<Vec>, seq<Vec>) {
    var (c, s) := cosSin(m.aPosition);
    (seq(6, i requires 0 <= i < 6 => Place(m.position, c, s, Corners[Triangles[i]])),
     seq(6, i requires 0 <= i < 6 => TextureCorners[Triangles[i]]))
  }

  /** `get_collision(m)`: each sample placed on the drawn square, from its
      first vertex along the edges to the second and the third. */
  function GetCollision(cosSin: real -> (real, real), m: Movement): seq<Vec> {
    var verts := GetVertices(cosSin, m).0;
    var origin := verts[0];
    var width := Sub(verts[1], verts[0]);
    var height := Sub(verts[2], verts[0]);
    seq(|Samples|, i requires 0 <= i < |Samples| =>
      Add(Add(origin, Scale(width, Samples[i].x)), Scale(height, Samples[i].y)))
  }

  /** The drawn square is the rotated square of side `Size` about the
      position: two triangles sharing the diagonal from the second to the
      third vertex, edges of length `Size` at right angles, and the last
      corner opposite the first. */
  lemma VerticesFormSquare(cosSin: real -> (real, real), m: Movement)
    requires IsCosSin(cosSin)
    ensures var (verts, uverts) := GetVertices(cosSin, m);
            var width, height := Sub(verts[1], verts[0]), Sub(verts[2], verts[0]);
            && |verts| == 6 && |uverts| == 6
            && verts[3] == verts[1] && verts[4] == verts[2]
            && NormSq(width) == Sq(Size) && NormSq(height) == Sq(Size)
            && Dot(width, height) == 0.0
            && verts[5] == Add(verts[0], Add(width, height))
            && Scale(Add(verts[0], verts[5]), 0.5) == m.position
  {
    var (c, s) := cosSin(m.aPosition);
    var verts := GetVertices(cosSin, m).0;
    assert Sq(c) + Sq(s) == 1.0;
    assert verts[0] == Place(m.position, c, s, Corners[0]);
    assert verts[1] == verts[3] == Place(m.position, c, s, Corners[1]);
    assert verts[2] == verts[4] == Place(m.position, c, s, Corners[2]);
    assert verts[5] == Place(m.position, c, s, Corners[3]);
    PlacedSquare(m.position, c, s);
  }

  /** The corners placed by `(pos, c, s)` form a square of side `Size`
      centred on `pos`. */
  lemma PlacedSquare(pos: Vec, c: real, s: real)
    requires Sq(c) + Sq(s) == 1.0
    ensures var p0, p1 := Place(pos, c, s, Corners[0]), Place(pos, c, s, Corners[1]);
            var p2, p3 := Place(pos, c, s, Corners[2]), Place(pos, c, s, Corners[3]);
            var width, height := Sub(p1, p0), Sub(p2, p0);
            && NormSq(width) == Sq(Size) && NormSq(height) == Sq(Size)
            && Dot(width, height) == 0.0
            && p3 == Add(p0, Add(width, height))
            && Scale(Add(p0, p3), 0.5) == pos
  {
    PlacedEdges(pos, c, s);
    PlacedDiagonal(pos, c, s);
    EdgesSquare(c, s);
  }

  /** The rotated edges of the square are at right angles and of length
      `Size`. */
  lemma EdgesSquare(c: real, s: real)
    requires Sq(c) + Sq(s) == 1.0
    ensures NormSq(Rotate(Vec(Size, 0.0), c, s)) == Sq(Size)
    ensures NormSq(Rotate(Vec(0.0, Size), c, s)) == Sq(Size)
    ensures Dot(Rotate(Vec(Size, 0.0), c, s), Rotate(Vec(0.0, Size), c, s)) == 0.0
  {
    var e1, e2 := Vec(Size, 0.0), Vec(0.0, Size);
    RotateIsometry(e1, e2, c, s);
    RotateIsometry(e2, e2, c, s);
  }

  lemma PlacedEdges(pos: Vec, c: real, s: real)
    ensures Sub(Place(pos, c, s, Corners[1]), Place(pos, c, s, Corners[0])) == Rotate(Vec(Size, 0.0), c, s)
    ensures Sub(Place(pos, c, s, Corners[2]), Place(pos, c, s, Corners[0])) == Rotate(Vec(0.0, Size), c, s)
  {
  }

  lemma PlacedDiagonal(pos: Vec, c: real, s: real)
    ensures var p0, p1 := Place(pos, c, s, Corners[0]), Place(pos, c, s, Corners[1]);
            var p2, p3 := Place(pos, c, s, Corners[2]), Place(pos, c, s, Corners[3]);
            && p3 == Add(p0, Add(Sub(p1, p0), Sub(p2, p0)))
            && Scale(Add(p0, p3), 0.5) == pos
  {
  }

  /** Each collision point is the position plus the rotated offset of its
      sample: the samples move rigidly with the ship. */
  lemma CollisionIsRigid(cosSin: real -> (real, real), m: Movement)
    ensures var (c, s) := cosSin(m.aPosition);
            var pts := GetCollision(cosSin, m);
            && |pts| == |Samples|
            && forall i :: 0 <= i < |Samples| ==> pts[i] == Place(m.position, c, s, Offset(Samples[i]))
  {
    var (c, s) := cosSin(m.aPosition);
    var pts := GetCollision(cosSin, m);
    forall i | 0 <= i < |Samples|
      ensures pts[i] == Place(m.position, c, s, Offset(Samples[i]))
    {
      PlaceSample(m.position, c, s, Samples[i]);
    }
  }

  /** Moving from the placed lower-left corner along the placed edges by
      the fractions of `f` reaches the placed offset of `f`. */
  lemma PlaceSample(pos: Vec, c: real, s: real, f: Vec)
    ensures var origin := Place(pos, c, s, Corners[0]);
            var width := Sub(Place(pos, c, s, Corners[1]), origin);
            var height := Sub(Place(pos, c, s, Corners[2]), origin);
            Add(Add(origin, Scale(width, f.x)), Scale(height, f.y)) == Place(pos, c, s, Offset(f))
  {
  }

  // ---------------------------------------------------------------------
  // moment of inertia

  /** `sum(w * abs(p - center) ** 2.0 for p in pts)`. */
  function InertiaSum(sqrt: real -> real, pts: seq<Vec>, center: Vec, w: real): real {
    if |pts| == 0 then 0.0
    else w * Sq(Length(sqrt, Sub(pts[0], center))) + InertiaSum(sqrt, pts[1..], center, w)
  }

  /** The moment of inertia of `mass` spread evenly over the points. */
  function MomentOfInertia(sqrt: real -> real, pts: seq<Vec>, center: Vec, mass: real): real {
    if |pts| == 0 then 0.0 else InertiaSum(sqrt, pts, center, mass / |pts| as real)
  }

  /** The sum of the squared lengths. */
  function SumNormSq(vs: seq<Vec>): real {
    if |vs| == 0 then 0.0 else NormSq(vs[0]) + SumNormSq(vs[1..])
  }

  /** The constructor's moment of inertia: the collision points of a ship
      at `(x, y)` with angle 0, about that position. */
  function ShipInertia(sqrt: real -> real, cosSin: real -> (real, real), x: real, y: real): real {
    var m := Movement(Vec(x, y), Zero, Zero, 0.0, 0.0, 0.0);
    MomentOfInertia(sqrt, GetCollision(cosSin, m), m.position, ShipMass)
  }

  /** The offsets of all samples. */
  function Offsets(): (r: seq<Vec>)
    ensures |r| == |Samples|
  {
    seq(|Samples|, i requires 0 <= i < |Samples| => Offset(Samples[i]))
  }

  /** The offsets of the samples, worked out. */
  const OffsetTable: seq<Vec> := [
    Vec(-9.0, -43.0), Vec(-28.0, -41.0), Vec(12.0, -43.0), Vec(30.0, -41.0),
    Vec(45.0, -17.0), Vec(-46.0, -18.0), Vec(-1.0, 47.0), Vec(5.0, 45.0),
    Vec(-6.0, 44.0), Vec(-26.0, 14.0), Vec(28.0, 12.0)]

  lemma OffsetsWorkedOut()
    ensures Offsets() == OffsetTable
  {
  }

  lemma OffsetTableNormSq()
    ensures SumNormSq(OffsetTable) == 21755.0
  {
  }

  /** The squared offsets add up to 21755. */
  lemma OffsetsNormSq()
    ensures SumNormSq(Offsets()) == 21755.0
  {
    OffsetsWorkedOut();
    OffsetTableNormSq();
  }

  /** When each point lies as far from the centre as the matching offset
      is long, the inertia sum is the weight times the offsets' squared
      lengths. */
  lemma {:induction false} InertiaSumOfDistances(sqrt: real -> real, pts: seq<Vec>, offs: seq<Vec>,
                                                 center: Vec, w: real)
    requires |pts| == |offs|
    requires forall i :: 0 <= i < |pts| ==> Sq(Length(sqrt, Sub(pts[i], center))) == NormSq(offs[i])
    ensures InertiaSum(sqrt, pts, center, w) == w * SumNormSq(offs)
  {
    if |pts| > 0 {
      var first := Sq(Length(sqrt, Sub(pts[0], center)));
      var rest := InertiaSum(sqrt, pts[1..], center, w);
      assert rest == w * SumNormSq(offs[1..]) by {
        InertiaSumOfDistances(sqrt, pts[1..], offs[1..], center, w);
      }
      SumStep(InertiaSum(sqrt, pts, center, w), w, first, rest, NormSq(offs[0]), SumNormSq(offs[1..]));
    }
  }

  lemma SumStep(total: real, w: real, first: real, rest: real, n: real, m: real)
    requires total == w * first + rest && first == n && rest == w * m
    ensures total == w * (n + m)
  {
  }

  /** A placed point is as far from the position as the offset it was
      placed from. */
  lemma PlacedDistance(sqrt: real -> real, center: Vec, c: real, s: real, off: Vec)
    requires IsSqrt(sqrt) && Sq(c) + Sq(s) == 1.0
    ensures Sq(Length(sqrt, Sub(Place(center, c, s, off), center))) == NormSq(off)
  {
    assert Sub(Place(center, c, s, off), center) == Rotate(off, c, s);
    assert NormSq(Rotate(off, c, s)) == NormSq(off) by {
      RotateIsometry(off, off, c, s);
    }
    LengthSquared(sqrt, Rotate(off, c, s));
  }

  /** The moment of inertia about the ship's position is
      `mass / 11 * 21755` in every pose: it does not depend on where the
      ship is or which way it points. */
  lemma InertiaInAnyPose(sqrt: real -> real, cosSin: real -> (real, real), m: Movement)
    requires IsSqrt(sqrt) && IsCosSin(cosSin)
    ensures MomentOfInertia(sqrt, GetCollision(cosSin, m), m.position, ShipMass) == ShipMass / 11.0 * 21755.0
  {
    var (c, s) := cosSin(m.aPosition);
    assert Sq(c) + Sq(s) == 1.0;
    var pts, offs := GetCollision(cosSin, m), Offsets();
    forall i | 0 <= i < |pts|
      ensures Sq(Length(sqrt, Sub(pts[i], m.position))) == NormSq(offs[i])
    {
      CollisionIsRigid(cosSin, m);
      PlacedDistance(sqrt, m.position, c, s, offs[i]);
    }
    InertiaSumOfDistances(sqrt, pts, offs, m.position, ShipMass / 11.0);
    OffsetsNormSq();
  }

  /** The constructor's moment of inertia is the positive constant
      217550 / 11 wherever the ship starts. */
  lemma ShipInertiaConstant(sqrt: real -> real, cosSin: real -> (real, real), x: real, y: real)
    requires IsSqrt(sqrt) && IsCosSin(cosSin)
    ensures ShipInertia(sqrt, cosSin, x, y) == 217550.0 / 11.0
    ensures 0.0 < ShipInertia(sqrt, cosSin, x, y)
  {
    InertiaInAnyPose(sqrt, cosSin, Movement(Vec(x, y), Zero, Zero, 0.0, 0.0, 0.0));
  }
}
