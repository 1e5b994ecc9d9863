/** The entities of the arcade game: its tuning constants, the ship, the
    asteroids and the lasers, and the two record builders `NewShip` and
    `NewAsteroid`.  Positions and velocities are reals; angles are kept in
    degrees, because no trigonometry is modelled. */
module Entities {

  datatype Option<T> = None | Some(value: T)

  // Tuning constants, as declared at the top of game.js.
  const FPS := 60
  const SHIP_SIZE := 20
  const LASER_MAX := 10
  const LASER_DIST := 0.6
  const LASER_SPD := 500
  const ASTEROID_NUM := 3
  const ASTEROID_SIZE := 100
  const ASTEROID_SPD := 50
  const ASTEROID_VERT := 10
  const ASTEROID_JAG := 0.4

  // The blink countdown a fresh ship starts with, and the starting lives.
  const BLINK_TIME := 30
  const BLINK_NUM := 5
  const START_LIVES := 3

  /** JavaScript's `Math.ceil`. */
  function Ceil(x: real): (c: int)
    ensures c as real - 1.0 < x <= c as real
  {
    -((-x).Floor)
  }

  // The three asteroid size tiers: ceil(100/2), ceil(100/4), ceil(100/8).
  const LARGE := Ceil(ASTEROID_SIZE as real / 2.0)
  const MEDIUM := Ceil(ASTEROID_SIZE as real / 4.0)
  const SMALL := Ceil(ASTEROID_SIZE as real / 8.0)

  lemma TierRadii()
    ensures LARGE == 50 && MEDIUM == 25 && SMALL == 13
  {
  }

  /** The ship's radius, SHIP_SIZE / 2. */
  const SHIP_R := SHIP_SIZE as real / 2.0

  datatype Ship = Ship(
    x: real, y: real,
    r: real,
    heading: real,        // degrees
    rot: real,
    thrusting: bool,
    thrustX: real, thrustY: real,
    blinkTime: int,       // ticks left in the current blink phase
    blinkNum: int,        // blink phases left before the ship is vulnerable
    dead: bool)

  datatype Asteroid = Asteroid(
    x: real, y: real,
    xv: real, yv: real,
    r: int,
    heading: real,        // degrees
    vert: int,            // vertex count of the outline
    offs: seq<real>)      // per-vertex radius jitter

  datatype Laser = Laser(x: real, y: real, xv: real, yv: real, dist: real)

  /** A point where the belt generator places a new asteroid. */
  datatype Spot = Spot(x: real, y: real)

  /** What one `Math.random()` call can return. */
  predicate Unit(u: real) {
    0.0 <= u < 1.0
  }

  /** The `Math.random()` draws one call of `newAsteroid` consumes, in the
      order it makes them: speed and sign for each axis, the facing, the
      vertex count, then one jitter draw per vertex. */
  datatype AsteroidDraws = AsteroidDraws(
    speedX: real, signX: real,
    speedY: real, signY: real,
    turn: real,
    vert: real,
    jag: seq<real>)

  const MIN_VERT := ASTEROID_VERT / 2
  const MAX_VERT := ASTEROID_VERT + ASTEROID_VERT / 2

  predicate ValidDraws(d: AsteroidDraws) {
    && Unit(d.speedX) && Unit(d.signX)
    && Unit(d.speedY) && Unit(d.signY)
    && Unit(d.turn) && Unit(d.vert)
    && |d.jag| >= MAX_VERT
    && forall i :: 0 <= i < |d.jag| ==> Unit(d.jag[i])
  }

  /** The fresh ship: centred, at rest, facing up, invulnerable for
      BLINK_NUM blink phases of BLINK_TIME ticks. */
  function NewShip(width: real, height: real): (s: Ship)
    ensures s.x == width / 2.0 && s.y == height / 2.0 && s.r == SHIP_R
    ensures s.thrustX == 0.0 && s.thrustY == 0.0 && !s.thrusting
    ensures s.blinkTime == BLINK_TIME && s.blinkNum == BLINK_NUM && !s.dead
  {
    Ship(width / 2.0, height / 2.0, SHIP_R, 90.0, 0.0, false, 0.0, 0.0,
         BLINK_TIME, BLINK_NUM, false)
  }

  /** The speed-scaling factor of a level, 1 + level * 0.1: 1 at level 0,
      and larger at every later level. */
  function LevelMult(level: nat): (m: real)
    ensures m >= 1.0
    ensures m == 1.0 <==> level == 0
  {
    1.0 + level as real * 0.1
  }

  /** Asteroids created at a later level may be faster. */
  lemma TopSpeedGrows(l1: nat, l2: nat)
    requires l1 <= l2
    ensures TopSpeed(l1) <= TopSpeed(l2)
  {
    assert LevelMult(l1) <= LevelMult(l2);
  }

  /** The largest speed per axis an asteroid created at `level` can get. */
  function TopSpeed(level: nat): (v: real)
    ensures v >= ASTEROID_SPD as real / FPS as real
  {
    ASTEROID_SPD as real * LevelMult(level) / FPS as real
  }

  /** One velocity component: a random fraction of the top speed, with a
      random sign. */
  function Velocity(speed: real, sign: real, level: nat): (v: real)
    requires Unit(speed)
    ensures -TopSpeed(level) <= v <= TopSpeed(level)
    ensures (v >= 0.0) == (sign < 0.5 || speed == 0.0)
  {
    var top := TopSpeed(level);
    assert 0.0 <= speed * top <= top by { ScaleBelow(speed, top); }
    speed * top * (if sign < 0.5 then 1.0 else -1.0)
  }

  lemma ScaleBelow(u: real, top: real)
    requires Unit(u) && top >= 0.0
    ensures 0.0 <= u * top <= top
    ensures u * top == 0.0 <==> (u == 0.0 || top == 0.0)
    ensures top > 0.0 ==> u * top < top
  {
    assert top - u * top == (1.0 - u) * top;
  }

  /** The vertex count: floor(draw * (ASTEROID_VERT + 1) + ASTEROID_VERT / 2). */
  function VertCount(u: real): (n: int)
    requires Unit(u)
    ensures MIN_VERT <= n <= MAX_VERT
  {
    (u * (ASTEROID_VERT + 1) as real + ASTEROID_VERT as real / 2.0).Floor
  }

  /** One vertex's jitter: draw * ASTEROID_JAG * 2 + 1 - ASTEROID_JAG. */
  function JagOffset(u: real): (o: real)
    requires Unit(u)
    ensures 1.0 - ASTEROID_JAG <= o < 1.0 + ASTEROID_JAG
  {
    u * ASTEROID_JAG * 2.0 + 1.0 - ASTEROID_JAG
  }

  /** A new asteroid of radius `r` at (x, y), built from the draws `d`;
      `level` is the level in force when it is created. */
  function NewAsteroid(x: real, y: real, r: int, level: nat, d: AsteroidDraws): (a: Asteroid)
    requires ValidDraws(d)
    ensures a.x == x && a.y == y && a.r == r
    ensures -TopSpeed(level) <= a.xv <= TopSpeed(level)
    ensures -TopSpeed(level) <= a.yv <= TopSpeed(level)
    ensures 0.0 <= a.heading < 360.0
    ensures MIN_VERT <= a.vert <= MAX_VERT && |a.offs| == a.vert
    ensures forall i :: 0 <= i < a.vert ==>
              a.offs[i] == JagOffset(d.jag[i]) && 1.0 - ASTEROID_JAG <= a.offs[i] < 1.0 + ASTEROID_JAG
  {
    var n := VertCount(d.vert);
    Asteroid(x, y,
             Velocity(d.speedX, d.signX, level),
             Velocity(d.speedY, d.signY, level),
             r,
             d.turn * 360.0,
             n,
             seq(n, i requires 0 <= i < n => JagOffset(d.jag[i])))
  }
}
