/** `Path`: a cursor that walks a parametric curve by a fixed step. */
module Paths {
  import opened Vectors

  /** `path` maps progress to a point; the game intends it to be cyclic
      with period 1, which nothing here relies on. */
  datatype Path = Path(path: real -> Vec, speed: real, progress: real)

  /** A new path starts at progress 0, by default with speed 0.01. */
  function NewPath(path: real -> Vec, speed: real := 0.01): Path {
    Path(path, speed, 0.0)
  }

  /** `look_next`, `look_previous`, `current`: the point one step ahead,
      one step behind, and at the cursor. They only read the cursor. */
  function LookNext(p: Path): Vec {
    p.path(p.progress + p.speed)
  }

  function LookPrevious(p: Path): Vec {
    p.path(p.progress - p.speed)
  }

  function Current(p: Path): Vec {
    p.path(p.progress)
  }

  /** `next_position`: advance the cursor one step and return the point
      there. */
  function NextPosition(p: Path): (Path, Vec) {
    var q := p.(progress := p.progress + p.speed);
    (q, Current(q))
  }

  /** One step returns what `look_next` showed before it, leaves the new
      cursor on that point, and makes the old point the one behind. */
  lemma NextPositionLooksAhead(p: Path)
    ensures var (q, pos) := NextPosition(p);
            && pos == LookNext(p)
            && Current(q) == pos
            && LookPrevious(q) == Current(p)
            && q.speed == p.speed
  {
  }

  /** `k` successive calls of `next_position`: the final cursor and the
      points returned, in order. */
  function Advance(p: Path, k: nat): (Path, seq<Vec>)
    decreases k
  {
    if k == 0 then (p, [])
    else
      var (q, pos) := NextPosition(p);
      var (r, rest) := Advance(q, k - 1);
      (r, [pos] + rest)
  }

  /** After `k` calls the progress has grown by `k` steps, the `i`-th call
      returned the point `i + 1` steps on, and the curve and step are
      those of the start. */
  lemma {:induction false} AdvanceProgress(p: Path, k: nat)
    ensures var (r, trace) := Advance(p, k);
            && r.progress == p.progress + k as real * p.speed
            && r.speed == p.speed
            && r.path == p.path
            && |trace| == k
            && forall i :: 0 <= i < k ==> trace[i] == p.path(p.progress + (i + 1) as real * p.speed)
    decreases k
  {
    if k > 0 {
      var q := NextPosition(p).0;
      AdvanceProgress(q, k - 1);
      var trace := Advance(p, k).1;
      var rest := Advance(q, k - 1).1;
      assert trace == [Current(q)] + rest;
      forall i | 0 <= i < k
        ensures trace[i] == p.path(p.progress + (i + 1) as real * p.speed)
      {
        if i == 0 {
          assert p.progress + p.speed == p.progress + (i + 1) as real * p.speed;
        } else {
          assert trace[i] == rest[i - 1];
          assert rest[i - 1] == q.path(q.progress + ((i - 1) + 1) as real * q.speed);
          assert q.progress + ((i - 1) + 1) as real * q.speed == p.progress + (i + 1) as real * p.speed;
        }
      }
    }
  }

  /** From a new path, `k` calls leave the progress at `k * speed`. */
  lemma FromStart(path: real -> Vec, speed: real, k: nat)
    ensures Advance(NewPath(path, speed), k).0.progress == k as real * speed
  {
    AdvanceProgress(NewPath(path, speed), k);
  }
}
