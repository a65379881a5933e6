/**
  The standard bullet: it bounces off walls and arena edges axis by axis,
  counts its duration down, leaves a trail unless its owner's ammunition
  is stealthed, and gives its ammunition back when it expires.
*/
module Bullet {
  import opened Wrappers
  import opened Geometry
  import opened Config
  import opened State
  import opened Mixins

  /** A bullet fired by `owner`, whose identity in the tank table is `ownerId`. */
  function NewBullet(id: nat, ownerId: nat, owner: Tank, cfg: Config, trig: Trig): (r: Projectile)
    ensures r.id == id && r.variant == Standard(cfg.bulletDuration) && r.d == cfg.bulletDiameter
    ensures r.pos == owner.cannon && r.direction == owner.direction && r.owner == ownerId
    ensures r.move == trig.offset(r.speed, r.direction) && r.speed == cfg.bulletSpeed
    ensures Consistent(r)
  {
    var move := trig.offset(cfg.bulletSpeed, owner.direction);
    Projectile(id, ownerId, owner.cannon, move, Add(owner.cannon, move),
               owner.direction, cfg.bulletSpeed, cfg.bulletDiameter,
               Standard(cfg.bulletDuration))
  }

  /**
    _checkWallCollision: an axis is blocked when advancing along that axis
    alone would put the bullet inside the wall.
  */
  function CheckWallCollision(p: Projectile, wall: Wall, stroke: real): (r: Axes)
    requires stroke >= 0.0
    ensures r.x <==> PointInRect(Vec(p.next.x, p.pos.y), WallRect(wall, stroke))
    ensures r.y <==> PointInRect(Vec(p.pos.x, p.next.y), WallRect(wall, stroke))
  {
    var rect := WallRect(wall, stroke);
    Axes(PointInRect(Vec(p.next.x, p.pos.y), rect), PointInRect(Vec(p.pos.x, p.next.y), rect))
  }

  /** _checkEdgeCollision: an axis is blocked when the lookahead leaves the arena on it. */
  function CheckEdgeCollision(p: Projectile, arena: Arena): (r: Axes)
    ensures r.x <==> !(0.0 <= p.next.x <= arena.width)
    ensures r.y <==> !(0.0 <= p.next.y <= arena.height)
  {
    var out := OutOfBounds(p.next, arena);
    Axes(out.x, out.y)
  }

  /** _bounce: reverse the flagged components and re-aim along the new displacement. */
  function Bounce(p: Projectile, axis: Axes, trig: Trig): (r: Projectile)
    ensures r.move.x == (if axis.x then -p.move.x else p.move.x)
    ensures r.move.y == (if axis.y then -p.move.y else p.move.y)
    ensures r.direction == trig.heading(r.move)
    ensures r == p.(move := r.move, direction := r.direction)
  {
    var move := Vec(if axis.x then -p.move.x else p.move.x,
                    if axis.y then -p.move.y else p.move.y);
    p.(move := move, direction := trig.heading(move))
  }

  /** Bouncing twice on the same axes restores the displacement. */
  lemma BounceTwiceRestoresMove(p: Projectile, axis: Axes, trig: Trig)
    ensures Bounce(Bounce(p, axis, trig), axis, trig).move == p.move
    ensures Bounce(Bounce(p, axis, trig), axis, trig) == p.(direction := trig.heading(p.move))
  {
  }

  /**
    A bounce mirrors the lookahead about the current position on each
    flagged axis, once the lookahead is refreshed.
  */
  lemma BounceMirrorsLookahead(p: Projectile, axis: Axes, trig: Trig)
    requires Consistent(p)
    ensures var q := UpdateNext(Bounce(p, axis, trig));
      && q.pos == p.pos
      && q.next.x == (if axis.x then 2.0 * p.pos.x - p.next.x else p.next.x)
      && q.next.y == (if axis.y then 2.0 * p.pos.y - p.next.y else p.next.y)
  {
  }

  /**
    envCollision: checks the wall when one is given, otherwise the arena
    edges, and bounces on the blocked axes. Position, lookahead and
    everything but displacement and direction are left alone.
  */
  function EnvCollision(p: Projectile, wall: Option<Wall>, cfg: Config, arena: Arena, trig: Trig): (r: Projectile)
    requires cfg.Valid()
    ensures var axis := if wall.Some? then CheckWallCollision(p, wall.value, cfg.wallStroke)
                        else CheckEdgeCollision(p, arena);
      && (axis.Any() ==> r == Bounce(p, axis, trig))
      && (!axis.Any() ==> r == p)
  {
    var axis := if wall.Some? then CheckWallCollision(p, wall.value, cfg.wallStroke)
                else CheckEdgeCollision(p, arena);
    if axis.Any() then Bounce(p, axis, trig) else p
  }

  /**
    envCollision only turns the bullet: position, lookahead, speed, lifetime
    and identity stay, and the displacement keeps its length, so a
    displacement as long as the speed stays as long after any bounce.
  */
  lemma EnvCollisionKeepsFlight(p: Projectile, wall: Option<Wall>, cfg: Config, arena: Arena, trig: Trig)
    requires cfg.Valid()
    ensures var r := EnvCollision(p, wall, cfg, arena, trig);
      && r.pos == p.pos && r.next == p.next && r.speed == p.speed
      && r.id == p.id && r.owner == p.owner && r.d == p.d && r.variant == p.variant
      && NormSq(r.move) == NormSq(p.move)
  {
  }

  /**
    An edge bounce turns the bullet back: when it is inside the arena and
    its lookahead leaves it on an axis, the bounced displacement on that
    axis points back into the arena.
  */
  lemma EdgeBounceHeadsInward(p: Projectile, arena: Arena, trig: Trig)
    requires Consistent(p) && !OutOfArena(p.pos, arena)
    ensures var axis := CheckEdgeCollision(p, arena);
      var r := Bounce(p, axis, trig);
      && (axis.x ==> (p.next.x < 0.0 && r.move.x > 0.0) || (p.next.x > arena.width && r.move.x < 0.0))
      && (axis.y ==> (p.next.y < 0.0 && r.move.y > 0.0) || (p.next.y > arena.height && r.move.y < 0.0))
  {
  }

  /**
    A wall bounce turns the bullet away: when it is outside the wall and the
    x-only (y-only) step enters it, the bounced displacement on that axis
    points away from the wall's side it came from.
  */
  lemma WallBounceHeadsAway(p: Projectile, wall: Wall, stroke: real, trig: Trig)
    requires stroke >= 0.0 && Consistent(p)
    requires !PointInRect(p.pos, WallRect(wall, stroke))
    ensures var rect := WallRect(wall, stroke);
      var axis := CheckWallCollision(p, wall, stroke);
      var r := Bounce(p, axis, trig);
      && (axis.x ==> (p.pos.x < rect.left && r.move.x < 0.0) || (p.pos.x > rect.right && r.move.x > 0.0))
      && (axis.y ==> (p.pos.y < rect.top && r.move.y < 0.0) || (p.pos.y > rect.bottom && r.move.y > 0.0))
  {
  }

  /** A bullet's trail so far; a bullet without an entry has none. */
  function TrailOf(trails: map<nat, seq<Vec>>, id: nat): seq<Vec>
  {
    if id in trails then trails[id] else []
  }

  /** _makeTrailPoint: append the position to this bullet's trail, creating it if missing. */
  function MakeTrailPoint(trails: map<nat, seq<Vec>>, p: Projectile): (r: map<nat, seq<Vec>>)
    ensures r.Keys == trails.Keys + {p.id}
    ensures r[p.id] == TrailOf(trails, p.id) + [p.pos]
    ensures forall id :: id in trails && id != p.id ==> r[id] == trails[id]
  {
    trails[p.id := TrailOf(trails, p.id) + [p.pos]]
  }

  /**
    _destroy: the bullet is marked dead, leaves the live list, and its
    owner gets the ammunition back.
  */
  function Destroy(w: World, i: nat): (r: World)
    requires Owned(w, i)
    ensures r.live == RemoveAt(w.live, i)
    ensures r.dead == w.dead + {w.live[i].id}
    ensures var o := w.live[i].owner;
      r.tanks == w.tanks[o := w.tanks[o].(ammo := w.tanks[o].ammo + 1)]
    ensures r.trails == w.trails && r.walls == w.walls && r.events == w.events
  {
    var p := w.live[i];
    var t := w.tanks[p.owner];
    w.(live := RemoveAt(w.live, i),
       dead := w.dead + {p.id},
       tanks := w.tanks[p.owner := t.(ammo := t.ammo + 1)])
  }

  /**
    onFrame: move, leave a trail point unless stealthed, refresh the
    lookahead and count down; at zero the bullet is destroyed.
  */
  function OnFrame(w: World, i: nat): (r: World)
    requires Owned(w, i) && w.live[i].variant.Standard?
    ensures var p := w.live[i];
      var q := UpdateNext(Move(p));
      var stealthed := w.tanks[p.owner].stealthedAmmo;
      && q.pos == Add(p.pos, p.move) && Consistent(q)
      && (stealthed ==> r.trails == w.trails)
      && (!stealthed ==> r.trails == w.trails[p.id := TrailOf(w.trails, p.id) + [q.pos]])
      && (p.variant.duration - 1 <= 0 ==>
            && r.live == RemoveAt(w.live, i)
            && r.dead == w.dead + {p.id}
            && r.tanks == w.tanks[p.owner := w.tanks[p.owner].(ammo := w.tanks[p.owner].ammo + 1)])
      && (p.variant.duration - 1 > 0 ==>
            && r.live == w.live[i := q.(variant := Standard(p.variant.duration - 1))]
            && r.dead == w.dead
            && r.tanks == w.tanks)
      && r.walls == w.walls && r.events == w.events
  {
    var p := w.live[i];
    var moved := Move(p);
    var trails := if !w.tanks[p.owner].stealthedAmmo then MakeTrailPoint(w.trails, moved) else w.trails;
    var q := UpdateNext(moved).(variant := Standard(p.variant.duration - 1));
    var w1 := w.(live := w.live[i := q], trails := trails);
    if q.variant.duration <= 0 then Destroy(w1, i) else w1
  }

  /**
    Runs the bullet at index `i` for up to `n` frames, stopping once it
    has left the live list.
  */
  function Frames(w: World, i: nat, n: nat): World
    requires Owned(w, i) && w.live[i].variant.Standard?
    decreases n
  {
    if n == 0 then w
    else
      var w1 := OnFrame(w, i);
      if w.live[i].variant.duration - 1 <= 0 then w1 else Frames(w1, i, n - 1)
  }

  /**
    Frames a bullet with `duration` left lives through, out of `n` offered:
    min(n, max(duration, 1)), since even a spent bullet lives one frame.
  */
  function FramesLived(duration: int, n: nat): nat
  {
    var life := if duration < 1 then 1 else duration;
    if n < life then n else life
  }

  /**
    Over its whole run a bullet gains exactly one trail point per frame it
    lives when its owner is unstealthed, and none when stealthed.
  */
  lemma {:induction false} TrailPointPerFrame(w: World, i: nat, n: nat)
    requires Owned(w, i) && w.live[i].variant.Standard?
    ensures var p := w.live[i];
      var grown := |TrailOf(Frames(w, i, n).trails, p.id)| - |TrailOf(w.trails, p.id)|;
      && (w.tanks[p.owner].stealthedAmmo ==> grown == 0)
      && (!w.tanks[p.owner].stealthedAmmo ==> grown == FramesLived(p.variant.duration, n))
    decreases n
  {
    var p := w.live[i];
    if n > 0 {
      var w1 := OnFrame(w, i);
      if p.variant.duration - 1 > 0 {
        assert w1.live[i].id == p.id && w1.live[i].owner == p.owner;
        assert w1.live[i].variant.duration == p.variant.duration - 1;
        TrailPointPerFrame(w1, i, n - 1);
      }
    }
  }
}
