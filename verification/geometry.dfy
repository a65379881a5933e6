/**
  Plane geometry the projectiles rely on: points, axis-aligned rectangles,
  per-axis arena bounds and wall footprints. The helper file that defines
  pointInRect, outOfBounds and getWallRect is not part of this model; these
  are the plain axis-aligned readings of those helpers. The trigonometric
  helpers (getOffsetPoint, getDirection) are floating-point trigonometry
  whose source is not shown, so they enter as uninterpreted functions.
*/
module Geometry {

  datatype Vec = Vec(x: real, y: real)

  function Add(a: Vec, b: Vec): Vec
  {
    Vec(a.x + b.x, a.y + b.y)
  }

  /** `v` scaled by the factor `f`. */
  function Scale(v: Vec, f: real): Vec
  {
    Vec(v.x * f, v.y * f)
  }

  /** Squared length of a vector. */
  function NormSq(v: Vec): real
  {
    v.x * v.x + v.y * v.y
  }

  /** Squared Euclidean distance; stands in for p5's `dist`. */
  function DistSq(a: Vec, b: Vec): real
  {
    (a.x - b.x) * (a.x - b.x) + (a.y - b.y) * (a.y - b.y)
  }

  /** An axis-aligned rectangle; containment is inclusive on every side. */
  datatype Rect = Rect(left: real, top: real, right: real, bottom: real)

  predicate PointInRect(p: Vec, r: Rect)
  {
    r.left <= p.x <= r.right && r.top <= p.y <= r.bottom
  }

  /** One flag per axis, as returned by outOfBounds and the bounce checks. */
  datatype Axes = Axes(x: bool, y: bool)
  {
    predicate Any() { x || y }
  }

  /** The playfield, spanning [0, width] x [0, height]. */
  datatype Arena = Arena(width: real, height: real)

  /** Per-axis arena-bound violation. */
  function OutOfBounds(p: Vec, a: Arena): (r: Axes)
    ensures r.x <==> !(0.0 <= p.x <= a.width)
    ensures r.y <==> !(0.0 <= p.y <= a.height)
  {
    Axes(p.x < 0.0 || p.x > a.width, p.y < 0.0 || p.y > a.height)
  }

  /** The point is out of bounds on some axis (outOfBounds read as one flag). */
  predicate OutOfArena(p: Vec, a: Arena)
  {
    OutOfBounds(p, a).Any()
  }

  /**
    A wall of the maze: its identity (walls are compared by reference in the
    game) and the axis-aligned centre segment it is drawn along.
  */
  datatype Wall = Wall(id: nat, from: Vec, to: Vec)

  function Min(a: real, b: real): real { if a <= b then a else b }
  function Max(a: real, b: real): real { if a <= b then b else a }

  /** The wall's footprint: its centre segment widened by half the stroke on every side. */
  function WallRect(w: Wall, stroke: real): (r: Rect)
    requires stroke >= 0.0
    ensures r.right - r.left >= stroke && r.bottom - r.top >= stroke
    ensures PointInRect(w.from, r) && PointInRect(w.to, r)
  {
    var half := stroke / 2.0;
    Rect(Min(w.from.x, w.to.x) - half, Min(w.from.y, w.to.y) - half,
         Max(w.from.x, w.to.x) + half, Max(w.from.y, w.to.y) + half)
  }

  /**
    The uninterpreted trigonometry: `offset(speed, direction)` is the
    displacement of length `speed` along `direction` (getOffsetPoint), and
    `heading(v)` the direction of the vector `v` (getDirection).
  */
  datatype Trig = Trig(offset: (real, real) -> Vec, heading: Vec -> real)
}
