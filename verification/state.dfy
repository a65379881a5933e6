/**
  The simulation state shared by the projectile and modifier rules: the
  projectiles, the tanks that fire them, and the world that holds the live
  projectile list, the trail store and the maze's walls.
*/
module State {
  import opened Wrappers
  import opened Geometry

  /** The per-variant part of a projectile. */
  datatype Variant =
    | Standard(duration: int)            // frames left to live
    | M82(penetrated: Option<nat>)       // identity of the wall being penetrated
    | Breaker

  /**
    A projectile. `move` is the per-frame displacement and `next` the
    lookahead position the collision checks read; `owner` identifies the
    firing tank in the world's tank table.
  */
  datatype Projectile = Projectile(
    id: nat,
    owner: nat,
    pos: Vec,
    move: Vec,
    next: Vec,
    direction: real,
    speed: real,
    d: real,
    variant: Variant)

  /** The lookahead is the position one displacement ahead. */
  predicate Consistent(p: Projectile)
  {
    p.next == Add(p.pos, p.move)
  }

  /** A modifier attached to a tank. */
  datatype Modifier =
    | StealthAmmo(duration: int)   // timed: frames left
    | LaserSight                   // conditional: lives while the equipment allows it

  /**
    The parts of a tank the core reads or writes. `player` identifies the
    player credited with the tank's kills; `modifiers` is the tank's
    modifier set, keyed by modifier identity.
  */
  datatype Tank = Tank(
    pos: Vec,
    d: real,
    direction: real,
    cannon: Vec,
    ammo: int,
    stealthedAmmo: bool,
    player: nat,
    equipment: Option<string>,
    modifiers: map<nat, Modifier>)

  /** Effects on collaborators outside the core (gotKill, Tank.handleHit). */
  datatype Event =
    | Kill(player: nat, victim: nat)
    | HandleHit(tank: nat)

  /**
    The world a frame works on. `dead` holds the identities of bullets
    marked dead (the trail renderer reads the flag after the bullet left
    `live`); `trails` maps a bullet's identity to its trail points.
  */
  datatype World = World(
    live: seq<Projectile>,
    trails: map<nat, seq<Vec>>,
    dead: set<nat>,
    tanks: map<nat, Tank>,
    walls: set<Wall>,
    events: seq<Event>)

  /** The projectile at index `i` exists and its owning tank is known. */
  predicate Owned(w: World, i: nat)
  {
    i < |w.live| && w.live[i].owner in w.tanks
  }
}
