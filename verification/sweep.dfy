/**
  The sub-stepped wall sweep of the M82 and the Breaker: the segment from
  the projectile's position towards its lookahead is sampled at travelled
  distances 0, s, 2s, ... up to the speed, and the wall is hit when some
  sample lies in its rectangle.
*/
module Sweep {
  import opened Geometry
  import opened State
  import opened Config
  import Mixins

  /** Number of k >= 0 with k * s <= limit. */
  function CountAtMost(limit: real, s: real): nat
    requires s > 0.0
  {
    if limit < 0.0 then 0 else (limit / s).Floor + 1
  }

  lemma CountAtMostSpec(limit: real, s: real, k: nat)
    requires s > 0.0
    ensures k < CountAtMost(limit, s) <==> k as real * s <= limit
  {
    var q := limit / s;
    DivTimes(limit, s);
    ScaleOrder(k as real, q, s);
    ScaleOrder(q, k as real, s);
  }

  /** Dividing by `s` and multiplying back is the identity. */
  lemma DivTimes(a: real, s: real)
    requires s != 0.0
    ensures (a / s) * s == a
  {
  }

  /** Multiplying by a positive factor preserves and reflects strict order. */
  lemma ScaleOrder(x: real, y: real, s: real)
    requires s > 0.0
    ensures x < y <==> x * s < y * s
  {
    assert y * s - x * s == (y - x) * s;
    if x < y {
      var u := y - x;
      assert u * s > 0.0;
    } else {
      var u := x - y;
      assert u * s >= 0.0;
    }
  }

  /** Multiplying a strict inequality by a positive factor keeps it. */
  lemma ScaleLess(x: real, y: real, s: real)
    requires s > 0.0 && x < y
    ensures x * s < y * s
  {
    var u := y - x;
    assert u * s > 0.0;
    assert y * s - x * s == u * s;
  }

  /** Multiplication distributes over a sum. */
  lemma PlusOneTimes(x: real, s: real)
    ensures (x + 1.0) * s == x * s + s
  {
  }

  /** Number of k >= 0 with k * s < limit. */
  function CountBelow(limit: real, s: real): nat
    requires s > 0.0
  {
    if limit <= 0.0 then 0
    else var f := (limit / s).Floor; if f as real == limit / s then f else f + 1
  }

  lemma CountBelowSpec(limit: real, s: real, k: nat)
    requires s > 0.0
    ensures k < CountBelow(limit, s) <==> k as real * s < limit
  {
    var q := limit / s;
    DivTimes(limit, s);
    ScaleOrder(k as real, q, s);
    if limit <= 0.0 {
      ScaleOrder(0.0, q, s);
    }
  }

  /** The point reached after travelling `t` of the frame's `speed` along `move`. */
  function At(pos: Vec, move: Vec, speed: real, t: real): Vec
    requires speed != 0.0
  {
    Add(pos, Scale(move, t / speed))
  }

  /**
    The number of meaningful samples. With a zero speed the JavaScript divides
    0 by 0, so its only sample is NaN, which lies in no rectangle.
  */
  function SampleCount(speed: real, s: real): nat
    requires s > 0.0
  {
    if speed <= 0.0 then 0 else CountAtMost(speed, s)
  }

  /** The k-th sample: the point after travelling k steps. */
  function Sample(p: Projectile, k: nat, s: real): Vec
    requires p.speed != 0.0
  {
    At(p.pos, p.move, p.speed, k as real * s)
  }

  /** The sweep's answer: some sample lies in the rectangle. */
  predicate SweepHits(p: Projectile, rect: Rect, s: real)
    requires s > 0.0
  {
    exists k: nat | k < SampleCount(p.speed, s) :: PointInRect(Sample(p, k, s), rect)
  }

  /** The first sample is the current position. */
  lemma FirstSampleIsPosition(p: Projectile, s: real)
    requires s > 0.0 && p.speed > 0.0
    ensures 0 < SampleCount(p.speed, s)
    ensures Sample(p, 0, s) == p.pos
  {
  }

  /** _checkWallCollision of the M82 and the Breaker, as the loop the JavaScript runs. */
  method CheckWallCollision(p: Projectile, rect: Rect, s: real) returns (hit: bool)
    requires s > 0.0
    ensures hit <==> SweepHits(p, rect, s)
  {
    if p.speed <= 0.0 {
      return false;
    }
    var step := 0.0;
    ghost var k: nat := 0;
    CountAtMostSpec(p.speed, s, k);
    while step <= p.speed
      invariant step == k as real * s
      invariant k <= SampleCount(p.speed, s)
      invariant k < SampleCount(p.speed, s) <==> step <= p.speed
      invariant forall j: nat :: j < k ==> !PointInRect(Sample(p, j, s), rect)
      decreases SampleCount(p.speed, s) - k
    {
      // the sample `step` along the frame's travel, as a fraction of the displacement
      var next := At(p.pos, p.move, p.speed, step);
      assert next == Sample(p, k, s);
      if PointInRect(next, rect) {
        return true;
      }
      step := step + s;
      k := k + 1;
      CountAtMostSpec(p.speed, s, k);
    }
    return false;
  }

  /** The least natural number at or above a non-negative real. */
  lemma CeilOf(q: real) returns (k: nat)
    requires q >= 0.0
    ensures q <= k as real < q + 1.0
  {
    var f := q.Floor;
    assert f as real <= q < f as real + 1.0;
    k := if f as real == q then f else f + 1;
  }

  /** A real factor within one of a / s scales to within one step of a. */
  lemma WithinOneStep(a: real, s: real, x: real)
    requires s > 0.0 && a / s <= x < a / s + 1.0
    ensures a <= x * s < a + s
  {
    var q := a / s;
    DivTimes(a, s);
    if q < x {
      ScaleLess(q, x, s);
    }
    assert a <= x * s;
    ScaleLess(x, q + 1.0, s);
    assert x * s < (q + 1.0) * s;
    PlusOneTimes(q, s);
    assert (q + 1.0) * s == q * s + s;
    assert x * s < q * s + s;
  }

  /** The first multiple of `s` at or after `a` is less than one step past it. */
  lemma StepAtOrAfter(a: real, s: real) returns (k: nat)
    requires a >= 0.0 && s > 0.0
    ensures a <= k as real * s < a + s
  {
    DivTimes(a, s);
    ScaleOrder(a / s, 0.0, s);
    k := CeilOf(a / s);
    WithinOneStep(a, s, k as real);
  }

  /**
    No tunnelling: if the path stays inside the rectangle for a stretch of
    at least one step that lies within this frame's travel, a sample lands
    in it.
  */
  lemma BandContainsSample(p: Projectile, rect: Rect, s: real, a: real, b: real)
    requires s > 0.0 && p.speed > 0.0
    requires 0.0 <= a && a + s <= b <= p.speed
    requires forall t :: a <= t <= b ==> PointInRect(At(p.pos, p.move, p.speed, t), rect)
    ensures SweepHits(p, rect, s)
  {
    var k := StepAtOrAfter(a, s);
    CountAtMostSpec(p.speed, s, k);
    assert PointInRect(At(p.pos, p.move, p.speed, k as real * s), rect);
    assert PointInRect(Sample(p, k, s), rect);
  }

  /**
    The round after `f` frames of straight flight: each frame moves it and
    refreshes its lookahead, as the onFrame of the M82 and the Breaker does.
  */
  function Ahead(p: Projectile, f: nat): (r: Projectile)
    ensures r.move == p.move && r.speed == p.speed
    decreases f
  {
    if f == 0 then p else Ahead(Mixins.UpdateNext(Mixins.Move(p)), f - 1)
  }

  /** Cancelling a non-zero factor. */
  lemma Cancel(x: real, y: real, s: real)
    requires s != 0.0 && x * s == y * s
    ensures x == y
  {
    assert (x - y) * s == 0.0;
  }

  /** The next frame's path continues this frame's: its travel `t` is this frame's `speed + t`. */
  lemma PathShift(p: Projectile, t: real)
    requires p.speed > 0.0
    ensures var q := Mixins.UpdateNext(Mixins.Move(p));
      At(q.pos, q.move, q.speed, t) == At(p.pos, p.move, p.speed, p.speed + t)
  {
    var u := t / p.speed;
    var v := (p.speed + t) / p.speed;
    DivTimes(t, p.speed);
    DivTimes(p.speed + t, p.speed);
    PlusOneTimes(u, p.speed);
    var lhs, rhs := v * p.speed, (u + 1.0) * p.speed;
    assert lhs == p.speed + t;
    assert rhs == p.speed + t;
    Cancel(v, u + 1.0, p.speed);
  }

  /**
    No tunnelling across frames: when a round flies straight for `n` frames,
    any stretch of that path at least one step long that lies inside the
    rectangle holds a sample of one of those frames' sweeps. The last
    sample of a frame and the first of the next are less than a step apart,
    so the stretch may straddle frames and the speed may be below the step.
  */
  lemma {:induction false} BandCaughtWithinFrames(p: Projectile, rect: Rect, s: real, n: nat, a: real, b: real)
    requires s > 0.0 && p.speed > 0.0
    requires 0.0 <= a && a + s <= b <= n as real * p.speed
    requires forall t :: a <= t <= b ==> PointInRect(At(p.pos, p.move, p.speed, t), rect)
    ensures exists f: nat | f < n :: SweepHits(Ahead(p, f), rect, s)
    decreases n
  {
    ScaleOrder(0.0, n as real, p.speed);
    assert n > 0;
    if b <= p.speed {
      BandContainsSample(p, rect, s, a, b);
      assert SweepHits(Ahead(p, 0), rect, s);
      return;
    }
    var q := Mixins.UpdateNext(Mixins.Move(p));
    assert Ahead(p, 1) == q;
    ScaleOrder(1.0, n as real, p.speed);
    assert n > 1;
    if a < p.speed {
      var k := StepAtOrAfter(a, s);
      if k as real * s <= p.speed {
        CountAtMostSpec(p.speed, s, k);
        assert PointInRect(Sample(p, k, s), rect);
        assert SweepHits(Ahead(p, 0), rect, s);
      } else {
        PathShift(p, 0.0);
        FirstSampleIsPosition(q, s);
        assert PointInRect(At(p.pos, p.move, p.speed, p.speed + 0.0), rect);
        assert PointInRect(Sample(q, 0, s), rect);
        assert SweepHits(Ahead(p, 1), rect, s);
      }
    } else {
      forall t | a - p.speed <= t <= b - p.speed
        ensures PointInRect(At(q.pos, q.move, q.speed, t), rect)
      {
        PathShift(p, t);
      }
      PlusOneTimes((n - 1) as real, p.speed);
      BandCaughtWithinFrames(q, rect, s, n - 1, a - p.speed, b - p.speed);
      var f: nat :| f < n - 1 && SweepHits(Ahead(q, f), rect, s);
      assert Ahead(p, f + 1) == Ahead(q, f);
    }
  }

  /**
    With the game's step of one less than the wall stroke, a stretch of a
    straight flight as long as a wall is thick that lies inside a wall's
    rectangle is caught by the sweep of one of the frames it spans, whatever
    the round's speed.
  */
  lemma WallBandDetected(p: Projectile, rect: Rect, cfg: Config, n: nat, a: real)
    requires cfg.Valid() && p.speed > 0.0
    requires 0.0 <= a && a + cfg.wallStroke <= n as real * p.speed
    requires forall t :: a <= t <= a + cfg.wallStroke ==> PointInRect(At(p.pos, p.move, p.speed, t), rect)
    ensures exists f: nat | f < n :: SweepHits(Ahead(p, f), rect, cfg.StepSize())
  {
    BandCaughtWithinFrames(p, rect, cfg.StepSize(), n, a, a + cfg.wallStroke);
  }
}
