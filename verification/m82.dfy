/**
  The M82: a fast round that is destroyed by the arena edges and passes
  through the first wall it touches, slowed down, while being destroyed by
  any other wall.
*/
module M82 {
  import opened Wrappers
  import opened Geometry
  import opened Config
  import opened State
  import opened Mixins
  import Sweep

  function NewM82(id: nat, ownerId: nat, owner: Tank, cfg: Config, trig: Trig): (r: Projectile)
    ensures r.id == id && r.variant == M82(None) && r.d == ShapeDiameter
    ensures r.pos == owner.cannon && r.direction == owner.direction && r.owner == ownerId
    ensures r.move == trig.offset(r.speed, r.direction) && r.speed == cfg.m82Speed
    ensures Consistent(r)
  {
    var move := trig.offset(cfg.m82Speed, owner.direction);
    Projectile(id, ownerId, owner.cannon, move, Add(owner.cannon, move),
               owner.direction, cfg.m82Speed, ShapeDiameter, M82(None))
  }

  /** The answer of _penetration together with the projectile it leaves behind. */
  datatype Penetration = Penetration(self: Projectile, pass: bool)

  /**
    _penetration: the first wall touched is remembered, the speed divided
    and the displacement recomputed, and the round passes; afterwards it
    passes exactly the remembered wall and nothing changes.
  */
  function Penetrate(p: Projectile, wall: Wall, cfg: Config, trig: Trig): (r: Penetration)
    requires p.variant.M82? && cfg.Valid()
    ensures p.variant.penetrated.None? ==>
      && r.pass
      && r.self.variant == M82(Some(wall.id))
      && r.self.speed == p.speed / cfg.penetrationDivisor
      && r.self.move == trig.offset(r.self.speed, p.direction)
      && r.self == p.(variant := r.self.variant, speed := r.self.speed, move := r.self.move)
    ensures p.variant.penetrated.Some? ==>
      && r.self == p
      && (r.pass <==> p.variant.penetrated.value == wall.id)
  {
    match p.variant.penetrated
    case None =>
      var speed := p.speed / cfg.penetrationDivisor;
      Penetration(p.(variant := M82(Some(wall.id)), speed := speed,
                     move := trig.offset(speed, p.direction)), true)
    case Some(remembered) =>
      Penetration(p, wall.id == remembered)
  }

  /** Once a wall is remembered it is never replaced. */
  lemma RememberedWallSticks(p: Projectile, wall: Wall, cfg: Config, trig: Trig)
    requires p.variant.M82? && cfg.Valid()
    ensures p.variant.penetrated.Some? ==> Penetrate(p, wall, cfg, trig).self.variant == p.variant
    ensures Penetrate(p, wall, cfg, trig).self.variant.M82?
    ensures Penetrate(p, wall, cfg, trig).self.variant.penetrated.Some?
  {
  }

  /**
    A run of wall contacts fed to _penetration, stopping at the first one
    that does not pass: the projectile it leaves, and whether it survived.
  */
  function Contacts(p: Projectile, walls: seq<Wall>, cfg: Config, trig: Trig): Penetration
    requires p.variant.M82? && cfg.Valid()
    decreases |walls|
  {
    if |walls| == 0 then Penetration(p, true)
    else
      var r := Penetrate(p, walls[0], cfg, trig);
      if r.pass then Contacts(r.self, walls[1..], cfg, trig) else Penetration(r.self, false)
  }

  /**
    From a fresh M82, a run of wall contacts is survived exactly when every
    contact is the first wall; the first wall is remembered and the speed
    has been divided exactly once.
  */
  lemma {:induction false} ContactsPassOnlyFirstWall(p: Projectile, walls: seq<Wall>, cfg: Config, trig: Trig)
    requires p.variant == M82(None) && cfg.Valid() && |walls| > 0
    ensures var r := Contacts(p, walls, cfg, trig);
      && (r.pass <==> forall k :: 0 <= k < |walls| ==> walls[k].id == walls[0].id)
      && r.self.variant == M82(Some(walls[0].id))
      && r.self.speed == p.speed / cfg.penetrationDivisor
  {
    var first := Penetrate(p, walls[0], cfg, trig);
    SameWallRun(first.self, walls[1..], walls[0].id, cfg, trig);
    var r := Contacts(p, walls, cfg, trig);
    if r.pass {
      forall k | 0 <= k < |walls|
        ensures walls[k].id == walls[0].id
      {
        if k > 0 { assert walls[k] == walls[1..][k - 1]; }
      }
    } else {
      var k :| 0 <= k < |walls[1..]| && walls[1..][k].id != walls[0].id;
      assert walls[k + 1].id != walls[0].id;
    }
  }

  /** While a wall is remembered, contacts pass exactly as long as they are that wall. */
  lemma {:induction false} SameWallRun(p: Projectile, walls: seq<Wall>, id: nat, cfg: Config, trig: Trig)
    requires p.variant == M82(Some(id)) && cfg.Valid()
    ensures var r := Contacts(p, walls, cfg, trig);
      && (r.pass <==> forall k :: 0 <= k < |walls| ==> walls[k].id == id)
      && r.self == p
    decreases |walls|
  {
    if |walls| > 0 {
      SameWallRun(p, walls[1..], id, cfg, trig);
      if walls[0].id == id {
        assert forall k :: 0 <= k < |walls[1..]| ==> walls[1..][k] == walls[k + 1];
      }
    }
  }

  /**
    envCollision: without a wall, any edge violation destroys the round;
    with a wall, a sweep hit that _penetration does not let through
    destroys it. A pass only updates the projectile in place.
  */
  method EnvCollision(w: World, i: nat, wall: Option<Wall>, cfg: Config, arena: Arena, trig: Trig)
    returns (r: World)
    requires i < |w.live| && w.live[i].variant.M82? && cfg.Valid()
    ensures var p := w.live[i];
      match wall
      case None =>
        && (OutOfArena(p.next, arena) ==> r == DestroySelf(w, i))
        && (!OutOfArena(p.next, arena) ==> r == w)
      case Some(wl) =>
        var rect := WallRect(wl, cfg.wallStroke);
        var pen := Penetrate(p, wl, cfg, trig);
        && (!Sweep.SweepHits(p, rect, cfg.StepSize()) ==> r == w)
        && (Sweep.SweepHits(p, rect, cfg.StepSize()) && !pen.pass ==> r == DestroySelf(w, i))
        && (Sweep.SweepHits(p, rect, cfg.StepSize()) && pen.pass ==> r == w.(live := w.live[i := pen.self]))
  {
    var p := w.live[i];
    match wall {
      case None =>
        r := if OutOfArena(p.next, arena) then DestroySelf(w, i) else w;
      case Some(wl) =>
        var hit := Sweep.CheckWallCollision(p, WallRect(wl, cfg.wallStroke), cfg.StepSize());
        if !hit {
          r := w;
        } else {
          var pen := Penetrate(p, wl, cfg, trig);
          r := if pen.pass then w.(live := w.live[i := pen.self]) else DestroySelf(w, i);
        }
    }
  }
}
