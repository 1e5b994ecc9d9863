# Arcade game rules, modelled in Dafny

This project models the game-rule core of `game.js`, a browser game in the
style of Asteroids. A ship flies on a toroidal canvas and fires lasers.
Large asteroids split into medium ones, medium into small ones, and small
ones vanish. Clearing the field starts the next level with a bigger belt.

The source keeps its state in module-level variables: score, lives, ship,
asteroids, lasers and level. The model keeps them as the fields of one
`Game.World` object. The frame loop's rule steps are methods on it:
asteroid motion, blink countdown, per-laser update, ship motion and ship
collisions. `shootLaser`, `destroyAsteroid`, `createAsteroidBelt`,
`explodeShip` and `resetGame` are methods too. The rules those methods
apply are pure functions in `Rules`, and the lemmas there prove the
properties of those rules. The records (`newShip`, `newAsteroid`) and
the constants are in `Entities`.

Modelling choices:

- Every `Math.random()` draw is a caller-supplied real in [0, 1).
  `Entities.AsteroidDraws` holds the draws one `newAsteroid` call
  consumes, in the order it makes them.
- A belt takes its positions as `spots`, with a precondition that each one
  is a whole-numbered point on the canvas, as `Math.floor(Math.random() *
  canvas.width)` gives, and passed the placement test. `Game.PlaceAsteroid` models the placement
  loop itself over a finite stream of draws.
- Distances are compared squared. Every threshold the source compares a
  distance with is positive (an asteroid radius, the sum of two radii, or
  `ASTEROID_SIZE * 2 + ship.r`), so `sqrt(d) < t` is exactly `d < t * t`.
  A laser's per-frame distance `step` is supplied with the precondition
  `step >= 0` and `step * step == xv * xv + yv * yv`.
- Positions and velocities are mathematical reals. Angles are kept in
  degrees, since no trigonometry is modelled. The source uses radians.
- Pending `setTimeout` callbacks are the `pending` list of `Timer`
  values. `World.FireTimer(k)` runs any one of them.
- Canvas width and height are fixed when a `World` is made.

Some rules are not what a plain toroidal wrap or a one-death-per-frame
game would do; the model follows the code:

- The wrap does not take the coordinate modulo the canvas size. A
  coordinate more than `r` past one edge is set to exactly `r` past the
  opposite edge (`Rules.WrapWithMargin`).
- The placement loop accepts a point at exactly the safety distance. It
  rejects only points strictly closer (`Rules.ClearOfShip`).
- Lives are not floored at zero. The collision scan does not stop after
  the first explosion, so one frame can cost several lives and schedule
  several timers (`Game.World.CheckShipCollisions`).
- `resetGame` does not cancel callbacks that are already scheduled.

## Model

| member | source | states |
|---|---|---|
| Entities.Ceil | game.js:76 | the result is the least integer not below `x`, as `Math.ceil` |
| Entities.TierRadii | game.js:119-125 | the three tiers are radius 50, 25 and 13 (`ceil(12.5)`) |
| Entities.NewShip | game.js:53-66 | a new ship is centred, at rest, has radius 10, is alive, and has blink counters 30 and 5 |
| Entities.LevelMult | game.js:81 | the level's speed factor is 1 at level 0 and larger at every later level |
| Entities.TopSpeedGrows | game.js:81-86 | the speed cap never falls as the level rises |
| Entities.TopSpeed | game.js:81-86 | the per-axis speed cap `ASTEROID_SPD * (1 + level * 0.1) / FPS` is at least its level-0 value |
| Entities.Velocity | game.js:85-86 | a velocity component is within plus or minus the level's top speed; it is non-negative exactly when the sign draw is below 0.5 or the speed draw is 0 |
| Entities.VertCount | game.js:89 | the vertex count of a new asteroid is between 5 and 15 |
| Entities.JagOffset | game.js:93 | each vertex jitter lies in [0.6, 1.4) |
| Entities.NewAsteroid | game.js:80-96 | a new asteroid has the requested position and radius, bounded velocity, a facing in [0, 360), 5 to 15 vertices, and one jitter offset in [0.6, 1.4) per vertex |
| Rules.DistSq | game.js:98-100 | the squared distance is never negative, is positive between distinct points and 0 from a point to itself |
| Rules.RootCompare | game.js:98-100 | for a non-negative distance and threshold, `dist < t` holds exactly when `dist * dist < t * t`, so comparing squares is comparing distances |
| Rules.Hits | game.js:248 | a point never hits an asteroid of radius 0 and always hits any other at its centre |
| Rules.ShipOverlaps | game.js:291 | the ship and an asteroid never overlap when their radii sum to 0 and always do when their centres coincide otherwise |
| Rules.DistanceTests | game.js:248 | with `dist` the true distance, the hit test is `dist < r`, the overlap test `dist < ship.r + r`, and the placement test `dist >= ASTEROID_SIZE * 2 + ship.r`, as the source writes them |
| Rules.ClearOfShip | game.js:75 | a spot that passes the placement test is never the ship's own centre |
| Rules.ClearSpotNoOverlap | game.js:75-76 | a large asteroid placed at a spot that passed the placement test does not overlap the ship |
| Rules.Candidate | game.js:73-74 | from two draws in [0, 1), the candidate point has whole-numbered coordinates in [0, width] by [0, height], below each far edge that is positive |
| Rules.WrapWithMargin | game.js:190-193 | the wrapped coordinate lies in [-r, extent + r]; a coordinate already inside is unchanged; one that changed went from below -r to extent + r, or from above extent + r to -r |
| Rules.WrapWithMarginIdempotent | game.js:284-287 | wrapping with a margin twice is the same as once |
| Rules.WrapEdge | game.js:258-259 | the laser wrap lands in [0, extent], leaves inside points alone, and moves others to the opposite edge |
| Rules.WrapEdgeIdempotent | game.js:258-259 | the laser wrap is idempotent |
| Rules.Drift | game.js:187-193 | one frame of asteroid motion changes only the position; the new position lies within the canvas plus the radius on both axes; a move that stays inside is plain addition of the velocity |
| Rules.BlinkStep | game.js:221-227 | one countdown tick changes only the two blink counters, keeps `blinkTime` in 1..30 and `blinkNum` in 0..5, and lowers the remaining invulnerable ticks by one until they reach 0 |
| Rules.TicksCountDown | game.js:221-227 | after `k` ticks the counters are still in range, only they have changed, and the remaining invulnerable ticks are `max(Remaining - k, 0)` |
| Rules.VulnerableAfter | game.js:289 | `blinkNum` reaches 0, which opens the collision gate, exactly when at least `Remaining(s)` ticks have passed |
| Rules.NewShipInvulnerability | game.js:62-63 | a fresh ship's counters stay in range, and its `blinkNum` is 0 after `k` live ticks if and only if `k >= 150` |
| Rules.Points | game.js:119-129 | every destruction earns at least 20 points, so the score never decreases |
| Rules.Children | game.js:119-126 | a large asteroid leaves two medium children, a medium one two small children, any other none; every child sits at the parent's position and has a tier radius |
| Rules.RemoveAt | game.js:131 | `splice(i, 1)` shortens the list by one and keeps every other element in its order |
| Rules.Shatter | game.js:120-131 | after pushing the children and splicing out the parent, the list has one element fewer than the old list plus the children, and the children end it |
| Rules.ShatterLayout | game.js:114-131 | after pushing the children and splicing out the parent, the other asteroids keep their relative order and the children follow them |
| Rules.ShatterTiered | game.js:119-131 | the split keeps every radius among the three tiers |
| Rules.Belt | game.js:68-78 | a belt has exactly `n` asteroids, the `i`-th a large one built at `spots[i]` |
| Rules.BeltShape | game.js:71-76 | every belt asteroid is large, sits on a whole-numbered canvas point, and is at least `ASTEROID_SIZE * 2 + ship.r` from the ship |
| Rules.AfterDestroy | game.js:114-137 | the list is never empty after a destruction; the level stays or rises by one; a risen level brings exactly the next level's belt; otherwise the list is one shorter than the old list plus the children |
| Rules.DestroyLarge | game.js:119-122 | destroying a large asteroid gives one more asteroid in all: the others in order, then two medium asteroids at its position; the level is unchanged |
| Rules.DestroyMedium | game.js:123-126 | destroying a medium asteroid gives one more asteroid in all: the others in order, then two small asteroids at its position |
| Rules.DestroySmall | game.js:127-137 | destroying a small asteroid removes it and keeps the rest in order; if it was the last, the level rises by one and the next belt replaces the list |
| Rules.DestroyLevelRule | game.js:134-137 | the list is never left empty; the level rises by exactly one, and only when the last asteroid, a small one, was destroyed; the new list then has `ASTEROID_NUM + level` asteroids |
| Rules.DestroyKeepsTiers | game.js:114-137 | destruction, including a level change, keeps every radius in {50, 25, 13} |
| Rules.CountOverlaps | game.js:290-294 | the number of overlapping asteroids is at most the list's length, and at least 1 when the last asteroid overlaps |
| Rules.CountOverlapsRange | game.js:290-294 | the overlap count is at most the number of asteroids; it is 0 exactly when no asteroid overlaps the ship, and full exactly when all do |
| Rules.CountOverlapsStep | game.js:290-294 | the scan adds one to the count per overlapping asteroid |
| Rules.TimerAfter | game.js:144-150 | a death schedules the end of the game exactly when lives are at or below 0, otherwise a respawn |
| Rules.ExplosionTimers | game.js:140-150 | `n` deaths in a row schedule `n` timers; the `k`-th is decided by the lives left after that death |
| Rules.Advance | game.js:243-245 | an advanced laser keeps its velocity, moves by it, and its travelled distance grows by the velocity's length |
| Rules.Expired | game.js:255 | on a canvas of any width, a laser that has not yet flown is not expired |
| Rules.WrapLaser | game.js:258-259 | the laser wrap changes only the position, lands on the canvas, and leaves a laser already on it unchanged |
| Rules.Splice | game.js:256 | `splice(i, 1)` removes element `i` when it exists and nothing otherwise |
| Rules.LaserListAsWritten | game.js:247-260 | the per-laser list update as written removes at most two lasers, and none when the laser neither hits nor expires |
| Rules.DoubleSpliceDropsNext | game.js:249-256 | for every list, a laser that hits and expires in the same frame also removes the laser after it; only the last laser has none to take |
| Rules.DoubleSpliceDropsNeighbour | game.js:249-256 | one example: of two lasers, the first hits and expires in the same frame, and the list is left empty |
| Rules.LaserList | game.js:247-260 | a laser that hits or has flown past `0.6 * width` is removed and the others stay in order; otherwise only it changes, to its wrapped self |
| Rules.LaserListAgreement | game.js:249-256 | the as-written and corrected updates agree exactly when the laser is not both hitting and expiring with another laser after it |
| Game.SelectHit | game.js:247-253 | the scan returns the highest index whose asteroid contains the point, or None when none does |
| Game.PlaceAsteroid | game.js:72-75 | the placement loop rejects candidates closer than the safety distance and returns the first clear one, or None when the stream runs out; a spot found from draws in [0, 1) meets a belt's spot precondition |
| Game.World.constructor | game.js:40-48 | a new world is in the state `resetGame` produces, with no pending timers |
| Game.World.ResetGame | game.js:40-48 | score 0, lives 3, level 0, a fresh ship, no lasers, and three large asteroids clear of the ship, none overlapping it; pending timers are kept |
| Game.World.CreateAsteroidBelt | game.js:68-78 | the list becomes exactly `ASTEROID_NUM + level` large asteroids, each on a whole-numbered canvas point and clear of the ship |
| Game.World.ShootLaser | game.js:102-112 | at `LASER_MAX` lasers or with a dead ship nothing changes; otherwise exactly one laser with `dist = 0` is appended; the count never exceeds 10 |
| Game.World.DestroyAsteroid | game.js:114-138 | the list and level become `AfterDestroy` of the old ones; score rises by 20, 50 or 100; after a level change the list is `ASTEROID_NUM + level` large asteroids clear of the ship; the tier invariant holds |
| Game.World.UpdateLaser | game.js:243-260 | the laser advances; the hit is the highest-index asteroid the laser is inside; a hit destroys that asteroid; the laser list becomes `LaserList` of the old one |
| Game.World.MoveAsteroids | game.js:187-194 | every asteroid drifts one frame and lands within the canvas plus its radius |
| Game.World.BlinkCountdown | game.js:221-227 | a live ship takes one `BlinkStep`; a dead one is unchanged |
| Game.World.AdvanceShip | game.js:281-287 | a live ship moves by its thrust vector and wraps into [-r, width + r] by [-r, height + r]; a dead one is unchanged |
| Game.World.ExplodeShip | game.js:140-151 | the ship is dead, lives drop by exactly 1, and the matching timer is scheduled |
| Game.World.CheckShipCollisions | game.js:289-295 | for a live ship with `blinkNum == 0`, lives drop by the number of overlapping asteroids and one timer per death is scheduled; otherwise nothing changes |
| Game.World.FireTimer | game.js:144-156 | a respawn timer brings a fresh ship, an end-game timer shows the game-over panel; the timer leaves the pending list |

## Left out

- Drawing and the DOM: every `ctx` call, the score, lives and final-score displays, `resize` and the event listeners. They are presentation only. `gameOver` stands for the game-over panel's visibility.
- Timing: the 1000 ms and 1500 ms `setTimeout` delays and `requestAnimationFrame`. Timers run in any order the caller chooses with `FireTimer`.
- Floating-point physics: thrust, friction and turning (game.js:265-274), the trigonometry of the laser spawn point and velocity (game.js:105-108), and IEEE rounding. `ShootLaser` takes the spawn point and velocity as parameters. `AdvanceShip` uses the thrust vector as it stands.
- The unbounded placement loop. `PlaceAsteroid` scans a finite stream and can run out; the source keeps drawing.
- The `forEach` iteration over lasers: splicing during it skips the next laser, so the model does not claim every laser is visited per frame.
- The frame's sequencing of the steps in `update`. Each step is a separate method.
- The keyboard handling and the fire debounce (game.js:276-279), and the rendering-only `blinkOn` flag (game.js:159).
- Ship, asteroid and laser are values inside the world, not shared objects. An in-place field update is a replacement of the whole record. No aliasing between them is modelled.
- Game.World.UpdateLaser: deliberately follows the corrected `LaserList`, not the source's second `splice` (see Findings).
- Rules.Points: the contract states only the lower bound 20; the exact 20/50/100 table is stated by `DestroyAsteroid`'s score postcondition together with the body.

## Findings

| source | as written | input that shows it | evidently intended | confidence | as-written member | corrected member |
|---|---|---|---|---|---|---|
| game.js:249-256 | after a hit, `lasers.splice(i, 1)` runs; if the laser has also flown past `0.6 * width`, `lasers.splice(i, 1)` runs again on the shortened list | lasers `[l0, l1]`, `l0` hits an asteroid in the frame its distance passes `0.6 * width`: both `l0` and `l1` are removed | only the laser that hit is removed | not executed; high from reading the code | Rules.LaserListAsWritten, with Rules.DoubleSpliceDropsNext for every input and the example Rules.DoubleSpliceDropsNeighbour | Rules.LaserList, used by Game.World.UpdateLaser |
