# Tanks arena: projectile and modifier core in Dafny

This project models the simulation core of a top-down tank arena game. It covers the three projectile variants and the two tank modifiers, and proves what each frame-step rule does to the state it touches.

The three projectile variants are:
- the standard **bullet**: it bounces axis by axis, counts its duration down, leaves a trail and returns its ammunition;
- the **M82**: a penetrator that passes through the first wall it touches, slowed down, and is destroyed by any other wall or by the arena edge;
- the **Breaker**: it destroys the wall it sweeps into, then itself.

All three share the same capabilities: kinematic stepping, the tank-hit rule (with self-immunity for stealthed rounds), and removal from the live list by index.

The two modifiers are:
- **StealthAmmo**: timed; it hides the tank's rounds until its countdown runs out.
- **LaserSight**: conditional; it stays while the tank holds suitable equipment, and each frame it ray-marches to the first blocked point and draws a line to it.

The model is functional:
- Projectiles, tanks and the world are immutable records over exact `real` coordinates.
- Each JavaScript method that mutates `this` becomes a function from the old record to the new one.
- Loops are methods with loop invariants: the sub-stepped wall sweep and the laser ray-march.

Files:
- `wrappers.dfy`: `Option`, used for JavaScript's `null`.
- `geometry.dfy`: points, inclusive axis-aligned rectangles, per-axis arena bounds, wall footprints, and the uninterpreted trigonometry `Trig`.
- `config.dfy`: the constants as a record. `Default` holds the game's values: wall stroke 6, sweep step `wallStroke - 1` = 5, bullet speed 3, diameter 8, duration 360, tank diameter 20, M82 speed 12, penetration divisor 3. The M82 and the Breaker are built with the literal diameter 3, so the configured M82 diameter is not read.
- `state.dfy`: projectiles (with a per-variant part), modifiers, tanks, events, and the world (live list, trail store, dead flags, tanks, walls).
- `mixins.dfy`: `canMoveStandard` and `canDestroySelf`.
- `bullet.dfy`, `m82.dfy`, `breaker.dfy`: the variants.
- `sweep.dfy`: the sub-stepped wall sweep shared by the M82 and the Breaker.
- `tank_hit.dfy`: `canHitTank`.
- `ammo.dfy`: the ammunition a tank holds plus its bullets in flight, kept by every bullet rule.
- `modifiers.dfy`: StealthAmmo, LaserSight, and the `hasTimer` / `canRemoveSelf` mixins.

Modelling choices:
- **Trigonometry.** `getOffsetPoint` and `getDirection` are fields of a `Trig` record (`offset(speed, direction)` and `heading(vector)`). The rules hold for any trigonometry.
- **Distance.** p5's `dist` is replaced by squared distance. `TankHit.CheckHitIsDistanceTest` shows the two tests agree.
- **Geometry helpers.** The file defining `pointInRect`, `outOfBounds` and `getWallRect` is not part of this model. The model reads them as follows:
  - containment in a rectangle is inclusive on every side;
  - a point is out of bounds on an axis when it lies outside `[0, width]` (or `[0, height]`);
  - a wall is its axis-aligned centre segment widened by half the stroke on every side.
- **Identity.** JavaScript compares projectiles, walls, tanks and modifiers by reference; the model compares them by numeric identity.
  - The trail store is keyed by projectile identity.
  - The bullet's `dead` flag is the set `World.dead` of identities, because its only reader is the trail renderer, after the bullet has left the live list.
  - `Wall.destroy` (in a file not part of this model) removes the wall from the world's wall set.
  - `gotKill` and `Tank.handleHit` (also not part of this model) are recorded as `Kill` and `HandleHit` events.
- **Unknown constants.** `config.js` does not define the Breaker's speed, the modifier durations, the laser's `onEquipment` list or the arena size, so these are parameters.
- **Constant keys.** `config.js` sets `config.env.collisionStepSize`, while the code reads `config.wall.collisionStepSize`. The values are taken from `config.js`.

Behaviour of the code worth noting:
- **Hit distance.** The tank-hit test at Projectiles.js:439 is strict (`dist < d/2 + tank.d/2`). Centres exactly the two radii apart do not hit (`TankHit.NoHitAtContactDistance`); with the game's diameters that distance is 14 (`TankHit.NoHitAtFourteen`).
- **Sweep range.** The loop at Projectiles.js:210 samples travelled distances `0, s, 2s, …` that are `<= speed`. It does not sample the lookahead itself unless `s` divides the speed: at speed 12 it samples 0, 5 and 10. The next frame's first sample is less than a step further on, so no stretch of a straight flight one step long is missed (`Sweep.BandCaughtWithinFrames`).
- **Breaker edge check.** The `else if` at Projectiles.js:338 also checks the arena edges on a wall call whose sweep missed.
- **Laser and arena bounds.** The out-of-bounds test of the laser (src/game/Modifiers.js:52-62) sits inside the loop over existing walls, so a maze without walls stops the ray nowhere (`Modifiers.NoWallsNoLaser`).

## Model

| member | source | states |
|---|---|---|
| Config.DefaultIsValid | config.js:15-60 | the game's constants give a positive sweep step (5) thinner than a wall (6) and a positive penetration divisor |
| Mixins.Move | Projectiles.js:459-462 | the position advances by exactly the displacement and nothing else changes |
| Mixins.UpdateNext | Projectiles.js:464-469 | the lookahead becomes position plus displacement and nothing else changes |
| Mixins.MoveThenUpdateNext | Projectiles.js:457-470 | after a move and a refresh the projectile sits where the old lookahead pointed and looks one displacement further |
| Mixins.AdvanceAt | Projectiles.js:289-293 | the M82's (and identical Breaker's, lines 407-411) frame moves only the projectile at its index, by its displacement, keeps every other field of it and leaves its lookahead consistent |
| Mixins.RemoveAt | Projectiles.js:449-455 | splice at i removes exactly that element; the others keep their order and the multiset loses only it |
| Mixins.DestroySelf | Projectiles.js:449-455 | the variants without ammo return only leave the live list |
| Bullet.NewBullet | Projectiles.js:11-37 | a new bullet has the given identity, the configured diameter and duration, starts at the cannon with the tank's direction, its displacement from speed and direction, and a consistent lookahead |
| Bullet.CheckWallCollision | Projectiles.js:52-70 | x is flagged iff the x-only step lies in the wall, y iff the y-only step does |
| Bullet.CheckEdgeCollision | Projectiles.js:72-90 | each axis is flagged iff the lookahead leaves the arena on it |
| Bullet.Bounce | Projectiles.js:92-103 | exactly the flagged components are negated and the direction is re-aimed along the new displacement |
| Bullet.BounceTwiceRestoresMove | Projectiles.js:92-103 | bouncing twice on the same axes restores the displacement |
| Bullet.BounceMirrorsLookahead | Projectiles.js:92-103 | after a bounce the refreshed lookahead is the old one mirrored about the position on each flagged axis |
| Bullet.EnvCollision | Projectiles.js:44-50 | the wall is checked when given, else the edges; with no flagged axis the bullet is unchanged |
| Bullet.EnvCollisionKeepsFlight | Projectiles.js:44-103 | envCollision keeps position, lookahead, speed, identity and lifetime, and the displacement's length |
| Bullet.EdgeBounceHeadsInward | Projectiles.js:72-103 | a bullet inside the arena whose lookahead leaves it on an axis is turned back into the arena on that axis |
| Bullet.WallBounceHeadsAway | Projectiles.js:52-103 | a bullet outside a wall whose one-axis step enters it is turned away from the wall on that axis |
| Bullet.MakeTrailPoint | Projectiles.js:106-117 | the bullet's trail, created empty if missing, gains its position at the end; other trails are untouched |
| Bullet.Destroy | Projectiles.js:141-147 | the bullet is marked dead, leaves the live list at its index, and its owner's ammunition grows by one |
| Bullet.OnFrame | Projectiles.js:150-161 | the duration drops by one; at or below zero the bullet is dead, removed at its index and its ammo returned; the trail gains the post-move position iff the owner is unstealthed |
| Bullet.TrailPointPerFrame | Projectiles.js:150-161 | over a whole run a bullet gains one trail point per frame it lives when unstealthed, none when stealthed |
| Ammo.InFlightRemoveAt | Projectiles.js:141-147 | removing the element at i loses one of a tank's bullets in flight exactly when that element is one |
| Ammo.DestroyKeepsStock | Projectiles.js:141-147 | destroying a bullet keeps every tank's ammunition plus bullets in flight |
| Ammo.OnFrameKeepsStock | Projectiles.js:150-161 | a bullet's frame, flying on or expiring, keeps every tank's ammunition plus bullets in flight |
| Ammo.HitKeepsStock | Projectiles.js:421-446 | a tank hit by any round keeps every tank's ammunition plus bullets in flight |
| Sweep.CheckWallCollision | Projectiles.js:206-222 | the loop returns true iff some sample at distance k*s <= speed lies in the wall rectangle |
| Sweep.FirstSampleIsPosition | Projectiles.js:210-216 | the first sample of a moving round is its current position |
| Sweep.BandContainsSample | Projectiles.js:209-221 | any stretch of the frame's path at least one step long that lies inside the rectangle contains a sample |
| Sweep.PathShift | Projectiles.js:289-293 | after a frame's move and lookahead refresh, the next frame's sampled path continues the previous one: its travel t is the old travel speed + t |
| Sweep.BandCaughtWithinFrames | Projectiles.js:206-222 | over n frames of straight flight, any stretch at least one step long inside the rectangle, even across frames or at a speed below the step, holds a sample of some frame's sweep |
| Sweep.WallBandDetected | config.js:43 | with step = stroke - 1, a stroke-long stretch of a straight flight inside a wall is caught by the sweep of one of the frames it spans, at any speed |
| M82.NewM82 | Projectiles.js:168-189 | a new M82 has the given identity, diameter 3, no remembered wall, the configured speed, starts at the cannon and has a consistent lookahead |
| M82.Penetrate | Projectiles.js:233-256 | the first wall is remembered, the speed divided by the divisor and the displacement recomputed, and the round passes; afterwards it passes iff the wall is the remembered one, changing nothing |
| M82.RememberedWallSticks | Projectiles.js:235-255 | once a wall is remembered it is never replaced |
| M82.ContactsPassOnlyFirstWall | Projectiles.js:233-256 | a run of contacts from a fresh M82 is survived iff every contact is the first wall, which stays remembered with the speed divided exactly once |
| M82.EnvCollision | Projectiles.js:197-204 | any edge violation destroys the round; a swept wall that does not pass destroys it; a pass only updates it in place; otherwise nothing changes |
| Breaker.NewBreaker | Projectiles.js:300-321 | a new Breaker has the given identity and diameter 3, starts at the cannon with the tank's direction and has a consistent lookahead |
| Breaker.EnvCollision | Projectiles.js:329-342 | 'continue' is answered iff the given wall is swept or the lookahead leaves the arena; then the round leaves the live list at its index; the given wall leaves the maze iff it was swept; otherwise nothing changes |
| Breaker.ContinueRemovesRoundAndWall | Projectiles.js:329-342 | on 'continue' exactly this round has left the live list; at most the given wall, and exactly it when present and swept, has left the maze; otherwise the world is unchanged |
| TankHit.CheckHitIsDistanceTest | Projectiles.js:434-440 | the squared test agrees with `dist < d/2 + tank.d/2` |
| TankHit.Destroy | Projectiles.js:442-445 | a hit destroys with the variant's own _destroy: the bullet's returns ammo, the others only splice |
| TankHit.Hit | Projectiles.js:421-432 | a hit is reported iff the round is not stealthed against its own tank and the distance test holds; a hit credits the firing player, removes the round at its index (a bullet is also the only one newly marked dead and returns its ammo) and hits the tank; otherwise nothing changes |
| TankHit.StealthedRoundSparesOwner | Projectiles.js:422-423 | a stealthed round never hits its own tank |
| TankHit.NoHitAtContactDistance | Projectiles.js:434-440 | centres exactly the sum of the two radii apart do not count as a hit |
| TankHit.NoHitAtFourteen | Projectiles.js:439 | with the configured diameters 8 and 20, centres exactly 14 apart do not count as a hit |
| Modifiers.Effect | src/game/Modifiers.js:18-22 | StealthAmmo's effect leaves the tank's rounds stealthed |
| Modifiers.EffectIdempotent | src/game/Modifiers.js:18-22 | applying the effect again changes nothing |
| Modifiers.Reset | src/game/Modifiers.js:24-26 | StealthAmmo's reset leaves the rounds unstealthed |
| Modifiers.Remove | src/game/Modifiers.js:128-136 | the reset hook runs when present, then exactly this modifier leaves the set and the others stay |
| Modifiers.TimedOnFrame | src/game/Modifiers.js:112-125 | effect, countdown by one, and self-removal iff the new duration is at most zero; stealth is on while attached and off after removal |
| Modifiers.StealthLasts | src/game/Modifiers.js:112-125 | a StealthAmmo with d frames left stays, with stealth on, through frame d-1 and is gone with stealth off from frame max(d,1) |
| Modifiers.Removal | src/game/Modifiers.js:93-97 | the sight removes itself iff the owner has no equipment or its name is not listed; other modifiers stay |
| Modifiers.RemovalCommutesWithTimer | src/game/Modifiers.js:93-136 | on one tank the sight's removal check and a StealthAmmo's frame commute |
| Modifiers.BlockedMeaning | src/game/Modifiers.js:52-62 | a ray point stops the march iff it lies in an existing wall, or is out of bounds while at least one wall exists |
| Modifiers.LineFromNoneIffClear | src/game/Modifiers.js:44-79 | the march draws nothing exactly when no ray point below range 9999 is blocked |
| Modifiers.LineFromIsFirstBlocked | src/game/Modifiers.js:44-79 | when the march draws, the line runs from the cannon to the first blocked ray point, every earlier one being clear |
| Modifiers.RayMarch | src/game/Modifiers.js:43-80 | the loop over distances 0, step, 2·step, … < 9999 returns exactly that first-blocked line |
| Modifiers.LineFromPoseOnly | src/game/Modifiers.js:44-79 | the march reads only the tank's position, facing and cannon: tanks agreeing on those draw the same line |
| Modifiers.NoWallsNoLaser | src/game/Modifiers.js:52-62 | with no walls the laser draws nothing, even where the ray leaves the arena |
| Modifiers.LaserOnFrame | src/game/Modifiers.js:100-104 | removal is decided first, and the first-blocked line is drawn whether or not the sight has just removed itself; it is the same line traced from the tank before or after the removal |

## Left out

- Rendering: `_show`, `_projectileShape`, `_drawLaser`, the p5 drawing calls, the muzzle-size arithmetic and the colour/alpha mutation. They draw on a canvas and change no simulation state.
- The lookup list `Projectile.projectiles` (Projectiles.js:1-6) and the modifier lookup table: name tables with no behaviour.
- Floating point: coordinates are exact reals, so rounding in the sweep's `step / speed` fractions and in the trigonometry is not modelled.
- Sweep.CheckWallCollision: at zero speed the JavaScript computes 0/0 (NaN), whose sample lies in no rectangle; the model answers "no hit" without that NaN sample, and a negative speed runs no sample in either.
- Modifiers.RayMarch: the JavaScript calls `outOfBounds(point2)` with the point object as its only argument. The helper's definition is not part of this model, so the call is read as the out-of-bounds test of that point.
- Sweep.WallBandDetected: covers a round flying straight at one speed. The frame in which an M82 is slowed by its first wall changes the speed mid-flight; from the next frame on the lemma applies again.
- The per-frame driver that walks the live list while splicing: it is not shown. Only the removal at an index is modelled.
- Game lifecycle, asset preloading, store set-up and maze generation (game.js, preload.js, state.js, Cell.js): bookkeeping, I/O and randomness outside the simulation core.
- The tank side of a hit (`Tank.handleHit`) and the player's `gotKill`: these files are not part of this model. They are recorded as events.
