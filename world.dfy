/** The game state and the operations that change it.  game.js keeps the
    state in module-level variables (score, lives, ship, asteroids, lasers,
    level); here they are the fields of one `World` object.  The canvas
    size is fixed for the life of a world. */
module Game {
  import opened Entities
  import opened Rules

  /** The laser-asteroid hit scan: asteroids from the highest index down,
      stopping at the first one the point (px, py) lies inside. */
  method SelectHit(px: real, py: real, s: seq<Asteroid>) returns (hit: Option<nat>)
    ensures hit.Some? ==> hit.value < |s| && Hits(px, py, s[hit.value])
    ensures hit.Some? ==> forall k :: hit.value < k < |s| ==> !Hits(px, py, s[k])
    ensures hit.None? ==> forall k :: 0 <= k < |s| ==> !Hits(px, py, s[k])
  {
    var j := |s| - 1;
    while j >= 0
      invariant -1 <= j < |s|
      invariant forall k :: j < k < |s| ==> !Hits(px, py, s[k])
    {
      if Hits(px, py, s[j]) {
        return Some(j);
      }
      j := j - 1;
    }
    return None;
  }

  /** The placement loop of the belt generator: draw candidate points until
      one is clear of the ship.  `draws` is the finite stream of draw pairs
      the caller offers; `tries` is how many candidates were rejected, and
      `spot` is None when the stream ran out first.  A spot it finds from
      `Math.random()` draws is one a belt accepts. */
  method PlaceAsteroid(ship: Ship, width: real, height: real, draws: seq<(real, real)>)
    returns (tries: nat, spot: Option<Spot>)
    ensures tries <= |draws|
    ensures forall k :: 0 <= k < tries ==> !ClearOfShip(ship, Candidate(draws[k], width, height))
    ensures spot.Some? ==> tries < |draws| && spot.value == Candidate(draws[tries], width, height)
    ensures spot.Some? ==> ClearOfShip(ship, spot.value)
    ensures spot.Some? && 0.0 <= width && 0.0 <= height && Unit(draws[tries].0) && Unit(draws[tries].1) ==>
              SpotsClear(ship, [spot.value], 1, width, height)
    ensures spot.None? ==> tries == |draws|
  {
    tries := 0;
    while tries < |draws|
      invariant tries <= |draws|
      invariant forall k :: 0 <= k < tries ==> !ClearOfShip(ship, Candidate(draws[k], width, height))
    {
      var c := Candidate(draws[tries], width, height);
      if ClearOfShip(ship, c) {
        return tries, Some(c);
      }
      tries := tries + 1;
    }
    return tries, None;
  }

  class World {
    const width: real
    const height: real
    var score: nat
    var lives: int
    var level: nat
    var ship: Ship
    var asteroids: seq<Asteroid>
    var lasers: seq<Laser>
    /** Respawn and game-over callbacks scheduled but not yet run. */
    var pending: seq<Timer>
    /** Whether the game-over panel is showing. */
    var gameOver: bool

    ghost predicate Valid()
      reads this
    {
      && 0.0 <= width && 0.0 <= height
      && ship.r == SHIP_R && BlinkInv(ship)
      && asteroids != [] && AllTiered(asteroids)
      && |lasers| <= LASER_MAX
    }

    /** A world on a `width` by `height` canvas, started as `resetGame`
        starts it. */
    constructor (width: real, height: real, spots: seq<Spot>, draws: seq<AsteroidDraws>)
      requires 0.0 <= width && 0.0 <= height
      requires BeltDrawsReady(spots, draws, ASTEROID_NUM)
      requires SpotsClear(NewShip(width, height), spots, ASTEROID_NUM, width, height)
      ensures Valid()
      ensures score == 0 && lives == START_LIVES && level == 0 && lasers == []
      ensures ship == NewShip(width, height) && asteroids == Belt(spots, draws, 0, ASTEROID_NUM)
      ensures pending == [] && !gameOver
    {
      this.width := width;
      this.height := height;
      pending := [];
      new;
      ResetGame(spots, draws);
    }

    /** `resetGame`: score 0, three lives, level 0, a fresh ship, no
        lasers and a first belt of ASTEROID_NUM large asteroids.  Timers
        already scheduled stay scheduled. */
    method ResetGame(spots: seq<Spot>, draws: seq<AsteroidDraws>)
      requires 0.0 <= width && 0.0 <= height
      requires BeltDrawsReady(spots, draws, ASTEROID_NUM)
      requires SpotsClear(NewShip(width, height), spots, ASTEROID_NUM, width, height)
      modifies this
      ensures Valid()
      ensures score == 0 && lives == START_LIVES && level == 0 && !gameOver
      ensures ship == NewShip(width, height) && lasers == []
      ensures asteroids == Belt(spots, draws, 0, ASTEROID_NUM) && |asteroids| == ASTEROID_NUM
      ensures forall i :: 0 <= i < |asteroids| ==>
                asteroids[i].r == LARGE && ClearOfShip(ship, Spot(asteroids[i].x, asteroids[i].y))
      ensures forall i :: 0 <= i < |asteroids| ==> !ShipOverlaps(ship, asteroids[i])
      ensures pending == old(pending)
    {
      score := 0;
      lives := START_LIVES;
      level := 0;
      gameOver := false;
      ship := NewShip(width, height);
      asteroids := [];
      lasers := [];
      CreateAsteroidBelt(spots, draws);
      forall i | 0 <= i < |asteroids| ensures !ShipOverlaps(ship, asteroids[i]) {
        ClearSpotNoOverlap(ship, asteroids[i]);
      }
    }

    /** `createAsteroidBelt`: ASTEROID_NUM + level large asteroids, the
        `i`-th at `spots[i]`, which passed the placement test. */
    method CreateAsteroidBelt(spots: seq<Spot>, draws: seq<AsteroidDraws>)
      requires BeltDrawsReady(spots, draws, ASTEROID_NUM + level)
      requires SpotsClear(ship, spots, ASTEROID_NUM + level, width, height)
      modifies this`asteroids
      ensures asteroids == Belt(spots, draws, level, ASTEROID_NUM + level)
      ensures AllTiered(asteroids) && |asteroids| == ASTEROID_NUM + level
      ensures forall i :: 0 <= i < |asteroids| ==>
                asteroids[i].r == LARGE && ClearOfShip(ship, Spot(asteroids[i].x, asteroids[i].y))
      ensures forall i :: 0 <= i < |asteroids| ==> OnGrid(Spot(asteroids[i].x, asteroids[i].y), width, height)
    {
      asteroids := [];
      var i := 0;
      while i < ASTEROID_NUM + level
        invariant 0 <= i <= ASTEROID_NUM + level
        invariant asteroids == Belt(spots, draws, level, i)
      {
        asteroids := asteroids + [NewAsteroid(spots[i].x, spots[i].y, LARGE, level, draws[i])];
        i := i + 1;
      }
      BeltShape(ship, spots, draws, level, ASTEROID_NUM + level, width, height);
    }

    /** `shootLaser`: a new laser at the given spawn point and velocity,
        unless the ship is dead or LASER_MAX lasers are in flight. */
    method ShootLaser(x: real, y: real, xv: real, yv: real)
      requires Valid()
      modifies this`lasers
      ensures Valid()
      ensures |old(lasers)| < LASER_MAX && !ship.dead ==> lasers == old(lasers) + [Laser(x, y, xv, yv, 0.0)]
      ensures |old(lasers)| >= LASER_MAX || ship.dead ==> lasers == old(lasers)
    {
      if |lasers| < LASER_MAX && !ship.dead {
        lasers := lasers + [Laser(x, y, xv, yv, 0.0)];
      }
    }

    /** `destroyAsteroid`: the asteroid at `index` is replaced by its
        children, pushed at the end, and the score rises by its points; an
        empty list moves the game to the next level and its belt. `d1` and
        `d2` are the children's draws; `spots` and `draws` feed a belt. */
    method DestroyAsteroid(index: nat, d1: AsteroidDraws, d2: AsteroidDraws,
                           spots: seq<Spot>, draws: seq<AsteroidDraws>)
      requires Valid() && index < |asteroids|
      requires ValidDraws(d1) && ValidDraws(d2)
      requires BeltDrawsReady(spots, draws, ASTEROID_NUM + level + 1)
      requires SpotsClear(ship, spots, ASTEROID_NUM + level + 1, width, height)
      modifies this
      ensures Valid()
      ensures (asteroids, level) == AfterDestroy(old(asteroids), old(level), index, d1, d2, spots, draws)
      ensures score == old(score) + Points(old(asteroids[index].r))
      ensures level == old(level) + 1 ==>
                && |asteroids| == ASTEROID_NUM + level
                && forall i :: 0 <= i < |asteroids| ==>
                     asteroids[i].r == LARGE && ClearOfShip(ship, Spot(asteroids[i].x, asteroids[i].y))
      ensures ship == old(ship) && lasers == old(lasers) && lives == old(lives)
      ensures pending == old(pending) && gameOver == old(gameOver)
    {
      ghost var s0, lv0 := asteroids, level;
      var a := asteroids[index];
      if a.r == LARGE {
        asteroids := asteroids + [NewAsteroid(a.x, a.y, MEDIUM, level, d1)];
        asteroids := asteroids + [NewAsteroid(a.x, a.y, MEDIUM, level, d2)];
        score := score + 20;
      } else if a.r == MEDIUM {
        asteroids := asteroids + [NewAsteroid(a.x, a.y, SMALL, level, d1)];
        asteroids := asteroids + [NewAsteroid(a.x, a.y, SMALL, level, d2)];
        score := score + 50;
      } else {
        score := score + 100;
      }
      assert asteroids == s0 + Children(a, lv0, d1, d2);
      asteroids := RemoveAt(asteroids, index);
      if |asteroids| == 0 {
        level := level + 1;
        CreateAsteroidBelt(spots, draws);
      }
      DestroyKeepsTiers(s0, lv0, index, d1, d2, spots, draws);
      DestroyLevelRule(s0, lv0, index, d1, d2, spots, draws);
    }

    /** The rules game.js:243-260 apply to laser `i` in one frame: advance
        it by its velocity (`step` is that velocity's length), scan for a
        hit, destroy the asteroid hit, and remove the laser if it hit or has
        flown its range, otherwise wrap it.  Unlike the source, a laser
        that hits is removed once, not a second time on expiry. */
    method UpdateLaser(i: nat, step: real, d1: AsteroidDraws, d2: AsteroidDraws,
                       spots: seq<Spot>, draws: seq<AsteroidDraws>)
      returns (hit: Option<nat>)
      requires Valid() && i < |lasers| && StepLength(lasers[i], step)
      requires ValidDraws(d1) && ValidDraws(d2)
      requires BeltDrawsReady(spots, draws, ASTEROID_NUM + level + 1)
      requires SpotsClear(ship, spots, ASTEROID_NUM + level + 1, width, height)
      modifies this
      ensures Valid()
      ensures var l := Advance(old(lasers[i]), step);
              lasers == LaserList(old(lasers), i, l, hit.Some?, width, height)
      ensures var l := Advance(old(lasers[i]), step);
              hit.None? ==>
                && (forall k :: 0 <= k < |old(asteroids)| ==> !Hits(l.x, l.y, old(asteroids)[k]))
                && asteroids == old(asteroids) && level == old(level) && score == old(score)
      ensures var l := Advance(old(lasers[i]), step);
              hit.Some? ==>
                && hit.value < |old(asteroids)| && Hits(l.x, l.y, old(asteroids)[hit.value])
                && (forall k :: hit.value < k < |old(asteroids)| ==> !Hits(l.x, l.y, old(asteroids)[k]))
                && (asteroids, level) == AfterDestroy(old(asteroids), old(level), hit.value, d1, d2, spots, draws)
                && score == old(score) + Points(old(asteroids)[hit.value].r)
      ensures ship == old(ship) && lives == old(lives)
      ensures pending == old(pending) && gameOver == old(gameOver)
    {
      var l := Advance(lasers[i], step);
      lasers := lasers[i := l];
      hit := SelectHit(l.x, l.y, asteroids);
      if hit.Some? {
        assert RemoveAt(lasers, i) == RemoveAt(old(lasers), i);
        lasers := RemoveAt(lasers, i);
        DestroyAsteroid(hit.value, d1, d2, spots, draws);
      } else if Expired(l, width) {
        assert RemoveAt(lasers, i) == RemoveAt(old(lasers), i);
        lasers := RemoveAt(lasers, i);
      } else {
        lasers := lasers[i := WrapLaser(l, width, height)];
      }
    }

    /** Asteroid motion for one frame: every asteroid advances by its
        velocity and wraps with its radius as margin. */
    method MoveAsteroids()
      requires Valid()
      modifies this`asteroids
      ensures Valid()
      ensures |asteroids| == |old(asteroids)|
      ensures forall k :: 0 <= k < |asteroids| ==> asteroids[k] == Drift(old(asteroids[k]), width, height)
      ensures forall k :: 0 <= k < |asteroids| ==>
                -(asteroids[k].r as real) <= asteroids[k].x <= width + asteroids[k].r as real &&
                -(asteroids[k].r as real) <= asteroids[k].y <= height + asteroids[k].r as real
    {
      var k := 0;
      while k < |asteroids|
        invariant 0 <= k <= |asteroids| == |old(asteroids)|
        invariant forall j :: 0 <= j < k ==> asteroids[j] == Drift(old(asteroids[j]), width, height)
        invariant forall j :: k <= j < |asteroids| ==> asteroids[j] == old(asteroids[j])
      {
        var a := asteroids[k];
        a := a.(x := a.x + a.xv, y := a.y + a.yv);
        if a.x < 0.0 - a.r as real {
          a := a.(x := width + a.r as real);
        } else if a.x > width + a.r as real {
          a := a.(x := 0.0 - a.r as real);
        }
        if a.y < 0.0 - a.r as real {
          a := a.(y := height + a.r as real);
        } else if a.y > height + a.r as real {
          a := a.(y := 0.0 - a.r as real);
        }
        assert a == Drift(asteroids[k], width, height);
        asteroids := asteroids[k := a];
        k := k + 1;
      }
      assert forall j :: 0 <= j < |asteroids| ==> Tiered(old(asteroids)[j].r);
    }

    /** The blink countdown of a live ship for one frame. */
    method BlinkCountdown()
      requires Valid()
      modifies this`ship
      ensures Valid()
      ensures ship == if old(ship).dead then old(ship) else BlinkStep(old(ship))
    {
      if !ship.dead {
        if ship.blinkNum > 0 {
          ship := ship.(blinkTime := ship.blinkTime - 1);
          if ship.blinkTime == 0 {
            ship := ship.(blinkTime := BLINK_TIME, blinkNum := ship.blinkNum - 1);
          }
        }
      }
    }

    /** Ship motion for one frame: advance a live ship by its thrust vector,
        then wrap with its radius as margin. */
    method AdvanceShip()
      requires Valid()
      modifies this`ship
      ensures Valid()
      ensures old(ship).dead ==> ship == old(ship)
      ensures !old(ship).dead ==>
                ship == old(ship).(x := WrapWithMargin(old(ship).x + old(ship).thrustX, SHIP_R, width),
                                   y := WrapWithMargin(old(ship).y + old(ship).thrustY, SHIP_R, height))
      ensures !old(ship).dead ==> -SHIP_R <= ship.x <= width + SHIP_R && -SHIP_R <= ship.y <= height + SHIP_R
    {
      if !ship.dead {
        ship := ship.(x := ship.x + ship.thrustX, y := ship.y + ship.thrustY);
        if ship.x < 0.0 - ship.r {
          ship := ship.(x := width + ship.r);
        } else if ship.x > width + ship.r {
          ship := ship.(x := 0.0 - ship.r);
        }
        if ship.y < 0.0 - ship.r {
          ship := ship.(y := height + ship.r);
        } else if ship.y > height + ship.r {
          ship := ship.(y := 0.0 - ship.r);
        }
      }
    }

    /** `explodeShip`: the ship is dead, one life is gone, and the game-over
        or respawn callback is scheduled. */
    method ExplodeShip()
      modifies this`ship, this`lives, this`pending
      ensures ship == old(ship).(dead := true) && lives == old(lives) - 1
      ensures pending == old(pending) + [TimerAfter(lives)]
    {
      ship := ship.(dead := true);
      lives := lives - 1;
      pending := pending + [TimerAfter(lives)];
    }

    /** The ship-asteroid collision test of one frame: only for a live ship
        whose blink countdown is over, and the ship explodes once for every
        asteroid it overlaps (the scan does not stop at the first). */
    method CheckShipCollisions()
      requires Valid()
      modifies this`ship, this`lives, this`pending
      ensures Valid()
      ensures !old(ship).dead && old(ship).blinkNum == 0 ==>
                && lives == old(lives) - CountOverlaps(old(ship), asteroids)
                && ship == old(ship).(dead := CountOverlaps(old(ship), asteroids) > 0)
                && pending == old(pending) + ExplosionTimers(old(lives), CountOverlaps(old(ship), asteroids))
      ensures old(ship).dead || old(ship).blinkNum != 0 ==>
                lives == old(lives) && ship == old(ship) && pending == old(pending)
    {
      if !ship.dead && ship.blinkNum == 0 {
        ghost var s0, l0, p0 := ship, lives, pending;
        ghost var n := 0;
        var i := 0;
        while i < |asteroids|
          invariant 0 <= i <= |asteroids|
          invariant n == CountOverlaps(s0, asteroids[..i])
          invariant lives == l0 - n
          invariant ship == s0.(dead := n > 0)
          invariant pending == p0 + ExplosionTimers(l0, n)
        {
          CountOverlapsStep(s0, asteroids, i);
          if ShipOverlaps(ship, asteroids[i]) {
            ExplodeShip();
            n := n + 1;
          }
          i := i + 1;
        }
        assert asteroids[..|asteroids|] == asteroids;
      }
    }

    /** One scheduled callback runs: a respawn brings a fresh ship, the end
        of the game shows the game-over panel. */
    method FireTimer(k: nat)
      requires Valid() && k < |pending|
      modifies this`ship, this`gameOver, this`pending
      ensures Valid()
      ensures pending == RemoveAt(old(pending), k)
      ensures old(pending[k]) == Respawn ==> ship == NewShip(width, height) && gameOver == old(gameOver)
      ensures old(pending[k]) == EndGame ==> gameOver && ship == old(ship)
    {
      var t := pending[k];
      pending := RemoveAt(pending, k);
      match t
      case Respawn => ship := NewShip(width, height);
      case EndGame => gameOver := true;
    }
  }
}
