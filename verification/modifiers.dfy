/**
  Modifiers attached to a tank: the timed StealthAmmo, which hides the
  tank's rounds until its countdown ends, and the conditional LaserSight,
  which draws an aiming ray while the tank holds suitable equipment.
*/
module Modifiers {
  import opened Wrappers
  import opened Geometry
  import opened Config
  import opened State
  import Sweep

  /** _effect of StealthAmmo (LaserSight's effect draws, see RayMarch). */
  function Effect(m: Modifier, t: Tank): (r: Tank)
    ensures m.StealthAmmo? ==> r.stealthedAmmo && r == t.(stealthedAmmo := true)
    ensures m.LaserSight? ==> r == t
  {
    if m.StealthAmmo? && !t.stealthedAmmo then t.(stealthedAmmo := true) else t
  }

  /** Applying an effect again changes nothing. */
  lemma EffectIdempotent(m: Modifier, t: Tank)
    ensures Effect(m, Effect(m, t)) == Effect(m, t)
  {
  }

  /** Only StealthAmmo brings a _reset hook. */
  predicate HasReset(m: Modifier)
  {
    m.StealthAmmo?
  }

  /** _reset of StealthAmmo: the tank's rounds are visible again. */
  function Reset(t: Tank): (r: Tank)
    ensures !r.stealthedAmmo && r == t.(stealthedAmmo := false)
  {
    t.(stealthedAmmo := false)
  }

  /**
    _remove of the modifier `m` with identity `id`: its reset hook runs
    first when it has one, then exactly this modifier leaves the set.
  */
  function Remove(t: Tank, id: nat, m: Modifier): (r: Tank)
    ensures r.modifiers.Keys == t.modifiers.Keys - {id}
    ensures forall k :: k in r.modifiers ==> r.modifiers[k] == t.modifiers[k]
    ensures HasReset(m) ==> !r.stealthedAmmo
    ensures !HasReset(m) ==> r.stealthedAmmo == t.stealthedAmmo
    ensures r == t.(stealthedAmmo := r.stealthedAmmo, modifiers := r.modifiers)
  {
    var reset := if HasReset(m) then Reset(t) else t;
    reset.(modifiers := reset.modifiers - {id})
  }

  /**
    onFrame of a timed modifier: apply the effect, count down, and remove
    itself once the countdown is at or below zero.
  */
  function TimedOnFrame(t: Tank, id: nat): (r: Tank)
    requires id in t.modifiers && t.modifiers[id].StealthAmmo?
    ensures var left := t.modifiers[id].duration - 1;
      && (id !in r.modifiers <==> left <= 0)
      && (left > 0 ==> r.modifiers[id] == StealthAmmo(left) && r.stealthedAmmo)
      && (left <= 0 ==> !r.stealthedAmmo)
      && (forall k :: k in t.modifiers && k != id ==> k in r.modifiers && r.modifiers[k] == t.modifiers[k])
      && r.modifiers.Keys <= t.modifiers.Keys
      && r == t.(stealthedAmmo := r.stealthedAmmo, modifiers := r.modifiers)
  {
    var m := t.modifiers[id];
    var affected := Effect(m, t);
    var counted := StealthAmmo(m.duration - 1);
    var t1 := affected.(modifiers := affected.modifiers[id := counted]);
    if counted.duration <= 0 then Remove(t1, id, counted) else t1
  }

  /** Runs a timed modifier for up to `n` frames, stopping once it has removed itself. */
  function TimedFrames(t: Tank, id: nat, n: nat): Tank
    requires id in t.modifiers && t.modifiers[id].StealthAmmo?
    decreases n
  {
    if n == 0 then t
    else
      var t1 := TimedOnFrame(t, id);
      if id in t1.modifiers then TimedFrames(t1, id, n - 1) else t1
  }

  /**
    A StealthAmmo with `d` frames left stays attached, and keeps the rounds
    stealthed, for exactly d - 1 frames; on frame max(d, 1) it is gone and
    the rounds are visible.
  */
  lemma {:induction false} StealthLasts(t: Tank, id: nat, n: nat)
    requires id in t.modifiers && t.modifiers[id].StealthAmmo? && n > 0
    ensures var d := t.modifiers[id].duration;
      var r := TimedFrames(t, id, n);
      && (n < d ==> id in r.modifiers && r.stealthedAmmo && r.modifiers[id] == StealthAmmo(d - n))
      && (n >= d ==> id !in r.modifiers && !r.stealthedAmmo)
    decreases n
  {
    var t1 := TimedOnFrame(t, id);
    if n > 1 && id in t1.modifiers {
      StealthLasts(t1, id, n - 1);
    }
  }

  /**
    _removal of LaserSight: it removes itself exactly when the owner holds
    no equipment or equipment whose name is not listed for it.
  */
  function Removal(t: Tank, id: nat, onEquipment: seq<string>): (r: Tank)
    requires id in t.modifiers && t.modifiers[id].LaserSight?
    ensures id !in r.modifiers <==> t.equipment.None? || t.equipment.value !in onEquipment
    ensures forall k :: k in t.modifiers && k != id ==> k in r.modifiers && r.modifiers[k] == t.modifiers[k]
    ensures r == t.(modifiers := r.modifiers)
  {
    if t.equipment.None? || t.equipment.value !in onEquipment then Remove(t, id, t.modifiers[id]) else t
  }

  /**
    On one tank the sight's removal check and a StealthAmmo's frame touch
    different modifiers (and only the timer touches the stealth flag), so
    running them in either order gives the same tank.
  */
  lemma RemovalCommutesWithTimer(t: Tank, laser: nat, stealth: nat, onEquipment: seq<string>)
    requires laser in t.modifiers && t.modifiers[laser].LaserSight?
    requires stealth in t.modifiers && t.modifiers[stealth].StealthAmmo?
    ensures Removal(TimedOnFrame(t, stealth), laser, onEquipment)
         == TimedOnFrame(Removal(t, laser, onEquipment), stealth)
  {
    var a := Removal(TimedOnFrame(t, stealth), laser, onEquipment);
    var b := TimedOnFrame(Removal(t, laser, onEquipment), stealth);
    assert a.modifiers == b.modifiers;
  }

  /** The drawn laser line. */
  datatype Segment = Segment(from: Vec, to: Vec)

  /** The k-th point of the ray: k steps from the tank's centre along its facing. */
  function RayPoint(t: Tank, k: nat, s: real, trig: Trig): Vec
  {
    Add(t.pos, trig.offset(k as real * s, t.direction))
  }

  /**
    The test of the ray-march's inner loops: some existing wall is found
    for which the point lies in that wall or out of the arena.
  */
  predicate Blocked(pt: Vec, walls: set<Wall>, stroke: real, arena: Arena)
    requires stroke >= 0.0
  {
    exists wl :: wl in walls && (PointInRect(pt, WallRect(wl, stroke)) || OutOfArena(pt, arena))
  }

  /**
    Because the arena test sits inside the loop over walls, a point out of
    the arena stops the ray only when the maze has a wall at all.
  */
  lemma BlockedMeaning(pt: Vec, walls: set<Wall>, stroke: real, arena: Arena)
    requires stroke >= 0.0
    ensures Blocked(pt, walls, stroke, arena) <==>
      (exists wl :: wl in walls && PointInRect(pt, WallRect(wl, stroke)))
      || (walls != {} && OutOfArena(pt, arena))
  {
    if walls != {} && OutOfArena(pt, arena) {
      var wl :| wl in walls;
      assert PointInRect(pt, WallRect(wl, stroke)) || OutOfArena(pt, arena);
    }
  }

  /** No ray point from the `from`-th up to (not including) the `to`-th is blocked. */
  predicate ClearBetween(t: Tank, from: nat, to: nat, walls: set<Wall>, cfg: Config, arena: Arena, trig: Trig)
    requires cfg.Valid()
  {
    forall j: nat :: from <= j < to ==> !Blocked(RayPoint(t, j, cfg.StepSize(), trig), walls, cfg.wallStroke, arena)
  }

  /** The number of ray points the march looks at: those closer than LaserRange. */
  function RayCount(cfg: Config): nat
    requires cfg.Valid()
  {
    Sweep.CountBelow(LaserRange, cfg.StepSize())
  }

  /** The line the march draws when it starts looking at the k-th ray point. */
  function LineFrom(t: Tank, k: nat, walls: set<Wall>, cfg: Config, arena: Arena, trig: Trig): Option<Segment>
    requires cfg.Valid()
    decreases RayCount(cfg) - k
  {
    if k >= RayCount(cfg) then None
    else
      var point := RayPoint(t, k, cfg.StepSize(), trig);
      if Blocked(point, walls, cfg.wallStroke, arena) then Some(Segment(t.cannon, point))
      else LineFrom(t, k + 1, walls, cfg, arena, trig)
  }

  /** The laser line of a frame: the march from the first ray point. */
  function LaserLine(t: Tank, walls: set<Wall>, cfg: Config, arena: Arena, trig: Trig): Option<Segment>
    requires cfg.Valid()
  {
    LineFrom(t, 0, walls, cfg, arena, trig)
  }

  /** From the k-th ray point on, nothing is drawn exactly when no later ray point is blocked. */
  lemma {:induction false} LineFromNoneIffClear(t: Tank, k: nat, walls: set<Wall>, cfg: Config, arena: Arena, trig: Trig)
    requires cfg.Valid()
    ensures LineFrom(t, k, walls, cfg, arena, trig).None? <==> ClearBetween(t, k, RayCount(cfg), walls, cfg, arena, trig)
    decreases RayCount(cfg) - k
  {
    var n := RayCount(cfg);
    if k < n {
      var point := RayPoint(t, k, cfg.StepSize(), trig);
      if Blocked(point, walls, cfg.wallStroke, arena) {
        assert !ClearBetween(t, k, n, walls, cfg, arena, trig);
      } else {
        LineFromNoneIffClear(t, k + 1, walls, cfg, arena, trig);
      }
    }
  }

  /**
    When the march from the k-th ray point draws, the line runs from the
    cannon to the first blocked ray point at or after the k-th.
  */
  lemma {:induction false} LineFromIsFirstBlocked(t: Tank, k: nat, walls: set<Wall>, cfg: Config, arena: Arena, trig: Trig)
    requires cfg.Valid() && LineFrom(t, k, walls, cfg, arena, trig).Some?
    ensures var line := LineFrom(t, k, walls, cfg, arena, trig).value;
      && line.from == t.cannon
      && exists j: nat | k <= j < RayCount(cfg) ::
            && line.to == RayPoint(t, j, cfg.StepSize(), trig)
            && Blocked(RayPoint(t, j, cfg.StepSize(), trig), walls, cfg.wallStroke, arena)
            && ClearBetween(t, k, j, walls, cfg, arena, trig)
    decreases RayCount(cfg) - k
  {
    var point := RayPoint(t, k, cfg.StepSize(), trig);
    if Blocked(point, walls, cfg.wallStroke, arena) {
      assert ClearBetween(t, k, k, walls, cfg, arena, trig);
    } else {
      LineFromIsFirstBlocked(t, k + 1, walls, cfg, arena, trig);
      var line := LineFrom(t, k, walls, cfg, arena, trig).value;
      var j: nat :| k + 1 <= j < RayCount(cfg)
        && line.to == RayPoint(t, j, cfg.StepSize(), trig)
        && Blocked(RayPoint(t, j, cfg.StepSize(), trig), walls, cfg.wallStroke, arena)
        && ClearBetween(t, k + 1, j, walls, cfg, arena, trig);
      assert ClearBetween(t, k, j, walls, cfg, arena, trig);
    }
  }

  /**
    _effect of LaserSight: march along the tank's facing from the tank's
    centre, one step at a time below LaserRange, and draw from the cannon
    to the first blocked ray point.
  */
  method RayMarch(t: Tank, walls: set<Wall>, cfg: Config, arena: Arena, trig: Trig)
    returns (drawn: Option<Segment>)
    requires cfg.Valid()
    ensures drawn == LaserLine(t, walls, cfg, arena, trig)
  {
    var s := cfg.StepSize();
    var dist := 0.0;
    var k: nat := 0;
    Sweep.CountBelowSpec(LaserRange, s, k);
    while dist < LaserRange
      invariant dist == k as real * s
      invariant k <= RayCount(cfg)
      invariant k < RayCount(cfg) <==> dist < LaserRange
      invariant LineFrom(t, k, walls, cfg, arena, trig) == LaserLine(t, walls, cfg, arena, trig)
      decreases RayCount(cfg) - k
    {
      // the potential end point, `dist` (= k steps) along the facing from the tank
      var point := RayPoint(t, k, s, trig);
      if Blocked(point, walls, cfg.wallStroke, arena) {
        return Some(Segment(t.cannon, point));
      }
      dist := dist + s;
      k := k + 1;
      Sweep.CountBelowSpec(LaserRange, s, k);
    }
    return None;
  }

  /**
    The march reads only the tank's position, facing and cannon: two tanks
    that agree on those draw the same line.
  */
  lemma {:induction false} LineFromPoseOnly(t: Tank, u: Tank, k: nat, walls: set<Wall>, cfg: Config, arena: Arena, trig: Trig)
    requires cfg.Valid()
    requires u.pos == t.pos && u.direction == t.direction && u.cannon == t.cannon
    ensures LineFrom(u, k, walls, cfg, arena, trig) == LineFrom(t, k, walls, cfg, arena, trig)
    decreases RayCount(cfg) - k
  {
    if k < RayCount(cfg) {
      assert RayPoint(u, k, cfg.StepSize(), trig) == RayPoint(t, k, cfg.StepSize(), trig);
      LineFromPoseOnly(t, u, k + 1, walls, cfg, arena, trig);
    }
  }

  /** With no wall in the maze the laser draws nothing, wherever it points. */
  lemma NoWallsNoLaser(t: Tank, cfg: Config, arena: Arena, trig: Trig)
    requires cfg.Valid()
    ensures LaserLine(t, {}, cfg, arena, trig).None?
  {
    LineFromNoneIffClear(t, 0, {}, cfg, arena, trig);
  }

  /**
    onFrame of LaserSight: the removal check runs first and the ray is
    drawn afterwards, so the ray is still drawn on the frame the sight
    removes itself.
  */
  method LaserOnFrame(t: Tank, id: nat, onEquipment: seq<string>, walls: set<Wall>,
                      cfg: Config, arena: Arena, trig: Trig)
    returns (r: Tank, drawn: Option<Segment>)
    requires id in t.modifiers && t.modifiers[id].LaserSight? && cfg.Valid()
    ensures r == Removal(t, id, onEquipment)
    ensures drawn == LaserLine(t, walls, cfg, arena, trig)
    ensures drawn == LaserLine(r, walls, cfg, arena, trig)
  {
    r := Removal(t, id, onEquipment);
    drawn := RayMarch(t, walls, cfg, arena, trig);
    LineFromPoseOnly(t, r, 0, walls, cfg, arena, trig);
  }
}
