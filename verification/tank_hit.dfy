/**
  The tank-hit capability every projectile mixes in (canHitTank): a
  distance test between centres, self-immunity for stealthed rounds, kill
  credit to the firing player and removal of the projectile.
*/
module TankHit {
  import opened Geometry
  import opened State
  import opened Mixins
  import Bullet
  import Config

  /** _checkHit, on squared distances: the centres are closer than the two radii. */
  predicate CheckHit(p: Projectile, tank: Tank)
  {
    DistSq(p.pos, tank.pos) < (p.d / 2.0 + tank.d / 2.0) * (p.d / 2.0 + tank.d / 2.0)
  }

  /**
    The squared test agrees with the JavaScript's `dist < d/2 + tank.d/2` for
    any non-negative distance whose square is the squared distance.
  */
  lemma CheckHitIsDistanceTest(p: Projectile, tank: Tank, dist: real)
    requires p.d >= 0.0 && tank.d >= 0.0
    requires dist >= 0.0 && dist * dist == DistSq(p.pos, tank.pos)
    ensures CheckHit(p, tank) <==> dist < p.d / 2.0 + tank.d / 2.0
  {
    var reach := p.d / 2.0 + tank.d / 2.0;
    SquareMonotone(dist, reach);
  }

  /** Squaring preserves and reflects the order of non-negative reals. */
  lemma SquareMonotone(a: real, b: real)
    requires a >= 0.0 && b >= 0.0
    ensures a < b <==> a * a < b * b
  {
    assert b * b - a * a == (b - a) * (b + a);
    if a < b {
      var u, v := b - a, b + a;
      assert u > 0.0 && v > 0.0;
      assert u * v > 0.0;
    } else {
      assert (a - b) * (b + a) >= 0.0;
    }
  }

  /** The _destroy each variant brings: the bullet's returns ammo, the others only splice. */
  function Destroy(w: World, i: nat): (r: World)
    requires Owned(w, i)
    ensures r.live == RemoveAt(w.live, i)
    ensures w.live[i].variant.Standard? ==> r == Bullet.Destroy(w, i)
    ensures !w.live[i].variant.Standard? ==> r == w.(live := r.live)
  {
    if w.live[i].variant.Standard? then Bullet.Destroy(w, i) else DestroySelf(w, i)
  }

  /** What tankHit leaves, and whether it reported a hit (ending the tank loop). */
  datatype Reply = Reply(world: World, hit: bool)

  /**
    tankHit: a stealthed round never hits its own tank; otherwise a hit is
    the distance test. A hit credits the firing player with the kill,
    destroys the projectile at its index and tells the tank it was hit.
  */
  function Hit(w: World, i: nat, target: nat): (r: Reply)
    requires Owned(w, i) && target in w.tanks
    ensures var p := w.live[i];
      var immune := w.tanks[p.owner].stealthedAmmo && p.owner == target;
      && (r.hit <==> !immune && CheckHit(p, w.tanks[target]))
      && (!r.hit ==> r.world == w)
      && (r.hit ==>
            && r.world.live == RemoveAt(w.live, i)
            && r.world.events == w.events + [Kill(w.tanks[p.owner].player, target), HandleHit(target)]
            && r.world.trails == w.trails && r.world.walls == w.walls)
      && (r.hit && p.variant.Standard? ==>
            && r.world.dead == w.dead + {p.id}
            && r.world.tanks == w.tanks[p.owner := w.tanks[p.owner].(ammo := w.tanks[p.owner].ammo + 1)])
      && (r.hit && !p.variant.Standard? ==> r.world.tanks == w.tanks && r.world.dead == w.dead)
  {
    var p := w.live[i];
    var owner := w.tanks[p.owner];
    if owner.stealthedAmmo && p.owner == target then Reply(w, false)
    else if CheckHit(p, w.tanks[target]) then
      var credited := w.(events := w.events + [Kill(owner.player, target)]);
      var destroyed := Destroy(credited, i);
      Reply(destroyed.(events := destroyed.events + [HandleHit(target)]), true)
    else Reply(w, false)
  }

  /** Self-immunity: a stealthed round tested against its own tank reports no hit and changes nothing. */
  lemma StealthedRoundSparesOwner(w: World, i: nat)
    requires Owned(w, i) && w.tanks[w.live[i].owner].stealthedAmmo
    ensures Hit(w, i, w.live[i].owner) == Reply(w, false)
  {
  }

  /** At exactly the sum of the two radii the strict test does not fire. */
  lemma NoHitAtContactDistance(p: Projectile, tank: Tank)
    requires DistSq(p.pos, tank.pos) == (p.d / 2.0 + tank.d / 2.0) * (p.d / 2.0 + tank.d / 2.0)
    ensures !CheckHit(p, tank)
  {
  }

  /**
    With the game's diameters (bullet 8, tank 20) a bullet whose centre is
    14 from the tank's, level with it, does not hit it.
  */
  lemma NoHitAtFourteen(p: Projectile, tank: Tank)
    requires p.d == Config.Default.bulletDiameter && tank.d == Config.Default.tankDiameter
    requires tank.pos == Vec(p.pos.x + 14.0, p.pos.y)
    ensures !CheckHit(p, tank)
  {
    NoHitAtContactDistance(p, tank);
  }
}
