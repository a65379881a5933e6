/**
  The Breaker: a round that destroys the first wall it sweeps into and
  then itself, and is destroyed by the arena edges.
*/
module Breaker {
  import opened Wrappers
  import opened Geometry
  import opened Config
  import opened State
  import opened Mixins
  import Sweep

  /** A Breaker fired by `owner`; its speed is a constant of the game configuration. */
  function NewBreaker(id: nat, ownerId: nat, owner: Tank, speed: real, trig: Trig): (r: Projectile)
    ensures r.id == id && r.variant == Breaker && r.d == ShapeDiameter
    ensures r.pos == owner.cannon && r.direction == owner.direction && r.owner == ownerId
    ensures r.move == trig.offset(r.speed, r.direction) && r.speed == speed
    ensures Consistent(r)
  {
    var move := trig.offset(speed, owner.direction);
    Projectile(id, ownerId, owner.cannon, move, Add(owner.cannon, move),
               owner.direction, speed, ShapeDiameter, Breaker)
  }

  /** What envCollision leaves, and whether it answered 'continue'. */
  datatype Reply = Reply(world: World, stop: bool)

  /** The given wall is in the round's sweep (the loop of Sweep.CheckWallCollision). */
  predicate WallHit(p: Projectile, wall: Option<Wall>, cfg: Config)
    requires cfg.Valid()
  {
    wall.Some? && Sweep.SweepHits(p, WallRect(wall.value, cfg.wallStroke), cfg.StepSize())
  }

  /**
    envCollision: a swept wall is removed from the maze and the round
    destroyed; otherwise (also when a wall was given but missed) an edge
    violation destroys the round. Both answer 'continue'; otherwise nothing
    changes.
  */
  function EnvCollision(w: World, i: nat, wall: Option<Wall>, cfg: Config, arena: Arena): (r: Reply)
    requires i < |w.live| && w.live[i].variant.Breaker? && cfg.Valid()
    ensures var p := w.live[i];
      && (r.stop <==> WallHit(p, wall, cfg) || OutOfArena(p.next, arena))
      && (r.stop ==> r.world.live == RemoveAt(w.live, i))
      && (!r.stop ==> r.world == w)
      && r.world.walls == (if WallHit(p, wall, cfg) then w.walls - {wall.value} else w.walls)
      && r.world == w.(live := r.world.live, walls := r.world.walls)
  {
    var p := w.live[i];
    if WallHit(p, wall, cfg) then Reply(DestroySelf(w.(walls := w.walls - {wall.value}), i), true)
    else if OutOfArena(p.next, arena) then Reply(DestroySelf(w, i), true)
    else Reply(w, false)
  }

  /**
    On 'continue' exactly one round, this one, has left the live list and
    at most one wall, the given one, has left the maze (exactly it, when it
    was there and swept); otherwise nothing has changed.
  */
  lemma ContinueRemovesRoundAndWall(w: World, i: nat, wall: Option<Wall>, cfg: Config, arena: Arena)
    requires i < |w.live| && w.live[i].variant.Breaker? && cfg.Valid()
    ensures var r := EnvCollision(w, i, wall, cfg, arena);
      && (r.stop ==> multiset(r.world.live) + multiset{w.live[i]} == multiset(w.live))
      && (!r.stop ==> r.world == w)
      && r.world.walls <= w.walls
      && (forall wl :: wl in w.walls && wl !in r.world.walls ==> wall == Some(wl))
      && |w.walls| - 1 <= |r.world.walls| <= |w.walls|
      && (WallHit(w.live[i], wall, cfg) && wall.value in w.walls ==> |r.world.walls| == |w.walls| - 1)
  {
    var r := EnvCollision(w, i, wall, cfg, arena);
    if WallHit(w.live[i], wall, cfg) {
      if wall.value in w.walls {
        assert w.walls == r.world.walls + {wall.value};
      } else {
        assert r.world.walls == w.walls;
      }
    }
  }
}
