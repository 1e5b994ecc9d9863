/** The discrete rules of one frame of the game, as pure functions over the
    entity records: distance tests, toroidal wrap, the blink countdown, the
    asteroid split and score table, belt generation, ship collisions and the
    per-laser bookkeeping.  `Game.World` applies them to its state. */
module Rules {
  import opened Entities

  // ---------------------------------------------------------------------
  // Distances.  The source compares Euclidean distances; every threshold
  // it compares against is positive, so `sqrt(d) < t` is `d < t * t`.

  function Square(v: real): real {
    v * v
  }

  lemma SquareSign(v: real)
    ensures Square(v) >= 0.0
    ensures v != 0.0 ==> Square(v) > 0.0
  {
    if v > 0.0 {
      calc { Square(v); v * v; > 0.0 * v; 0.0; }
    } else if v < 0.0 {
      calc { Square(v); v * v; (-v) * (-v); > 0.0 * (-v); 0.0; }
    } else {
      calc { Square(v); v * v; 0.0 * 0.0; 0.0; }
    }
  }

  /** The squared distance between two points: never negative, and zero
      exactly between a point and itself. */
  function DistSq(x1: real, y1: real, x2: real, y2: real): (d: real)
    ensures d >= 0.0
    ensures x1 != x2 || y1 != y2 ==> d > 0.0
    ensures x1 == x2 && y1 == y2 ==> d == 0.0
  {
    SquareSign(x2 - x1);
    SquareSign(y2 - y1);
    Square(x2 - x1) + Square(y2 - y1)
  }

  /** Why squared distances may stand in for `distBetweenPoints`: for a
      non-negative root `dist` of `d` and a non-negative threshold `t`,
      `dist < t` exactly when `d < t * t`. */
  lemma RootCompare(dist: real, t: real)
    requires dist >= 0.0 && t >= 0.0
    ensures dist < t <==> Square(dist) < Square(t)
  {
    if dist < t {
      assert Square(dist) <= dist * t < Square(t);
    } else {
      assert Square(t) <= t * dist <= Square(dist);
    }
  }

  /** The point (px, py) lies strictly inside asteroid `a`'s circle: never
      for an asteroid of radius 0, always at the centre of any other. */
  predicate Hits(px: real, py: real, a: Asteroid): (b: bool)
    ensures b ==> a.r != 0
    ensures a.r != 0 && px == a.x && py == a.y ==> b
  {
    SquareSign(a.r as real);
    DistSq(px, py, a.x, a.y) < Square(a.r as real)
  }

  /** The ship's circle and asteroid `a`'s circle overlap: never when the
      radii add up to 0, always when the centres coincide otherwise. */
  predicate ShipOverlaps(s: Ship, a: Asteroid): (b: bool)
    ensures b ==> s.r + a.r as real != 0.0
    ensures s.r + a.r as real != 0.0 && s.x == a.x && s.y == a.y ==> b
  {
    SquareSign(s.r + a.r as real);
    DistSq(s.x, s.y, a.x, a.y) < Square(s.r + a.r as real)
  }

  /** The distance tests read as the source writes them: with `dist` the
      distance, a hit is `dist < r`, an overlap `dist < ship.r + r`, and a
      clear spot `dist >= SafeGap`. */
  lemma DistanceTests(s: Ship, a: Asteroid, px: real, py: real, dist: real, shipDist: real)
    requires a.r >= 0 && s.r >= 0.0
    requires dist >= 0.0 && Square(dist) == DistSq(px, py, a.x, a.y)
    requires shipDist >= 0.0 && Square(shipDist) == DistSq(s.x, s.y, a.x, a.y)
    ensures Hits(px, py, a) <==> dist < a.r as real
    ensures ShipOverlaps(s, a) <==> shipDist < s.r + a.r as real
    ensures ClearOfShip(s, Spot(a.x, a.y)) <==> shipDist >= SafeGap(s)
  {
    RootCompare(dist, a.r as real);
    RootCompare(shipDist, s.r + a.r as real);
    RootCompare(shipDist, SafeGap(s));
  }

  /** The least distance a belt asteroid keeps from the ship. */
  function SafeGap(s: Ship): real {
    ASTEROID_SIZE as real * 2.0 + s.r
  }

  /** `p` passes the belt generator's placement test: it is no closer to
      the ship than `SafeGap`, so it is never the ship's own centre. */
  predicate ClearOfShip(s: Ship, p: Spot): (b: bool)
    ensures b && SafeGap(s) != 0.0 ==> p != Spot(s.x, s.y)
  {
    SquareSign(SafeGap(s));
    DistSq(s.x, s.y, p.x, p.y) >= Square(SafeGap(s))
  }

  /** A large asteroid placed at a clear spot does not overlap the ship:
      the safety gap is `ASTEROID_SIZE * 2 + ship.r`, more than the
      `LARGE + ship.r` an overlap needs. */
  lemma ClearSpotNoOverlap(s: Ship, a: Asteroid)
    requires s.r >= 0.0 && a.r == LARGE
    requires ClearOfShip(s, Spot(a.x, a.y))
    ensures !ShipOverlaps(s, a)
  {
    TierRadii();
    assert 0.0 <= s.r + a.r as real < SafeGap(s);
    assert Square(s.r + a.r as real) < Square(SafeGap(s)) by {
      RootCompare(s.r + a.r as real, SafeGap(s));
    }
  }

  /** A point the belt generator can draw: whole-numbered coordinates on
      the canvas. */
  predicate OnGrid(p: Spot, width: real, height: real) {
    && 0.0 <= p.x <= width && p.x == p.x.Floor as real
    && 0.0 <= p.y <= height && p.y == p.y.Floor as real
  }

  /** The point one pair of `Math.random()` draws gives the belt generator,
      floor(u * width), floor(v * height): a whole-numbered point on the
      canvas, strictly left of and above its far edges when they are
      positive. */
  function Candidate(uv: (real, real), width: real, height: real): (p: Spot)
    ensures Unit(uv.0) && Unit(uv.1) && 0.0 <= width && 0.0 <= height ==> OnGrid(p, width, height)
    ensures Unit(uv.0) && 0.0 < width ==> p.x < width
    ensures Unit(uv.1) && 0.0 < height ==> p.y < height
  {
    Spot(Cell(uv.0, width), Cell(uv.1, height))
  }

  /** floor(u * w) for one draw `u`: a whole number in [0, w], below `w`
      when `w` is positive. */
  function Cell(u: real, w: real): (c: real)
    ensures Unit(u) && 0.0 <= w ==> 0.0 <= c <= w && c == c.Floor as real
    ensures Unit(u) && 0.0 < w ==> c < w
  {
    if Unit(u) && 0.0 <= w then CellWithin(u, w); (u * w).Floor as real
    else (u * w).Floor as real
  }

  lemma CellWithin(u: real, w: real)
    requires Unit(u) && 0.0 <= w
    ensures 0.0 <= (u * w).Floor as real <= w
    ensures ((u * w).Floor as real).Floor == (u * w).Floor
    ensures 0.0 < w ==> (u * w).Floor as real < w
  {
    ScaleBelow(u, w);
    FloorWithin(u * w, w);
  }

  lemma FloorWithin(z: real, w: real)
    requires 0.0 <= z <= w
    ensures 0.0 <= z.Floor as real <= w && (z.Floor as real).Floor == z.Floor
    ensures z < w ==> z.Floor as real < w
  {
  }

  // ---------------------------------------------------------------------
  // Toroidal wrap.

  /** The wrap rule for the ship and asteroids: a coordinate more than `r`
      past either edge of [0, extent] jumps to `r` past the other edge. */
  function WrapWithMargin(p: real, r: real, extent: real): (q: real)
    ensures 0.0 <= r && 0.0 <= extent ==> -r <= q <= extent + r
    ensures -r <= p <= extent + r ==> q == p
    ensures q != p ==> (p < -r && q == extent + r) || (p > extent + r && q == -r)
  {
    if p < 0.0 - r then extent + r
    else if p > extent + r then 0.0 - r
    else p
  }

  lemma WrapWithMarginIdempotent(p: real, r: real, extent: real)
    requires 0.0 <= r && 0.0 <= extent
    ensures WrapWithMargin(WrapWithMargin(p, r, extent), r, extent) == WrapWithMargin(p, r, extent)
  {
  }

  /** The wrap rule for lasers: no margin. */
  function WrapEdge(p: real, extent: real): (q: real)
    ensures 0.0 <= extent ==> 0.0 <= q <= extent
    ensures 0.0 <= p <= extent ==> q == p
    ensures q != p ==> (p < 0.0 && q == extent) || (p > extent && q == 0.0)
  {
    if p < 0.0 then extent
    else if p > extent then 0.0
    else p
  }

  lemma WrapEdgeIdempotent(p: real, extent: real)
    requires 0.0 <= extent
    ensures WrapEdge(WrapEdge(p, extent), extent) == WrapEdge(p, extent)
  {
  }

  /** One frame of asteroid motion: advance by the velocity, then wrap. */
  function Drift(a: Asteroid, width: real, height: real): (b: Asteroid)
    ensures b == a.(x := b.x, y := b.y)
    ensures 0 <= a.r && 0.0 <= width ==> -(a.r as real) <= b.x <= width + a.r as real
    ensures 0 <= a.r && 0.0 <= height ==> -(a.r as real) <= b.y <= height + a.r as real
    ensures -(a.r as real) <= a.x + a.xv <= width + a.r as real ==> b.x == a.x + a.xv
    ensures -(a.r as real) <= a.y + a.yv <= height + a.r as real ==> b.y == a.y + a.yv
  {
    a.(x := WrapWithMargin(a.x + a.xv, a.r as real, width),
       y := WrapWithMargin(a.y + a.yv, a.r as real, height))
  }

  // ---------------------------------------------------------------------
  // The blink countdown of a freshly spawned ship.

  predicate BlinkInv(s: Ship) {
    1 <= s.blinkTime <= BLINK_TIME && 0 <= s.blinkNum <= BLINK_NUM
  }

  /** Ticks left until the ship becomes vulnerable. */
  function Remaining(s: Ship): int {
    if s.blinkNum > 0 then (s.blinkNum - 1) * BLINK_TIME + s.blinkTime else 0
  }

  /** One tick of the countdown of a live ship. */
  function BlinkStep(s: Ship): (t: Ship)
    ensures t == s.(blinkTime := t.blinkTime, blinkNum := t.blinkNum)
    ensures BlinkInv(s) ==> BlinkInv(t)
    ensures BlinkInv(s) ==> Remaining(t) == if Remaining(s) > 0 then Remaining(s) - 1 else 0
  {
    if s.blinkNum > 0 then
      var u := s.(blinkTime := s.blinkTime - 1);
      if u.blinkTime == 0 then u.(blinkTime := BLINK_TIME, blinkNum := u.blinkNum - 1) else u
    else s
  }

  /** `k` ticks of the countdown. */
  function Ticks(s: Ship, k: nat): Ship
    decreases k
  {
    if k == 0 then s else Ticks(BlinkStep(s), k - 1)
  }

  lemma {:induction false} TicksCountDown(s: Ship, k: nat)
    requires BlinkInv(s)
    ensures BlinkInv(Ticks(s, k))
    ensures Remaining(Ticks(s, k)) == if k < Remaining(s) then Remaining(s) - k else 0
    ensures Ticks(s, k) == s.(blinkTime := Ticks(s, k).blinkTime, blinkNum := Ticks(s, k).blinkNum)
    decreases k
  {
    if k > 0 {
      TicksCountDown(BlinkStep(s), k - 1);
    }
  }

  /** The ship is vulnerable after exactly `Remaining(s)` ticks, and not
      before. */
  lemma VulnerableAfter(s: Ship, k: nat)
    requires BlinkInv(s)
    ensures Ticks(s, k).blinkNum == 0 <==> k >= Remaining(s)
  {
    TicksCountDown(s, k);
  }

  /** A fresh ship is invulnerable for exactly BLINK_NUM * BLINK_TIME = 150
      live ticks, and its counters stay in range throughout. */
  lemma NewShipInvulnerability(width: real, height: real, k: nat)
    ensures BlinkInv(Ticks(NewShip(width, height), k))
    ensures Ticks(NewShip(width, height), k).blinkNum == 0 <==> k >= BLINK_NUM * BLINK_TIME
  {
    var s := NewShip(width, height);
    assert Remaining(s) == 150;
    VulnerableAfter(s, k);
    TicksCountDown(s, k);
  }

  // ---------------------------------------------------------------------
  // Destroying an asteroid.

  predicate Tiered(r: int) {
    r == LARGE || r == MEDIUM || r == SMALL
  }

  predicate AllTiered(s: seq<Asteroid>) {
    forall i :: 0 <= i < |s| ==> Tiered(s[i].r)
  }

  /** Points for destroying an asteroid of radius `r`: 20 for a large
      one, 50 for a medium one, 100 for any other. */
  function Points(r: int): (p: nat)
    ensures p >= 20
  {
    if r == LARGE then 20 else if r == MEDIUM then 50 else 100
  }

  /** The asteroids that replace `a` when it is destroyed. */
  function Children(a: Asteroid, level: nat, d1: AsteroidDraws, d2: AsteroidDraws): (kids: seq<Asteroid>)
    requires ValidDraws(d1) && ValidDraws(d2)
    ensures a.r == LARGE ==> |kids| == 2 && forall k :: 0 <= k < 2 ==> kids[k].r == MEDIUM
    ensures a.r == MEDIUM ==> |kids| == 2 && forall k :: 0 <= k < 2 ==> kids[k].r == SMALL
    ensures a.r != LARGE && a.r != MEDIUM ==> kids == []
    ensures forall k :: 0 <= k < |kids| ==> kids[k].x == a.x && kids[k].y == a.y && Tiered(kids[k].r)
  {
    if a.r == LARGE then
      [NewAsteroid(a.x, a.y, MEDIUM, level, d1), NewAsteroid(a.x, a.y, MEDIUM, level, d2)]
    else if a.r == MEDIUM then
      [NewAsteroid(a.x, a.y, SMALL, level, d1), NewAsteroid(a.x, a.y, SMALL, level, d2)]
    else
      []
  }

  /** `s` without its element at `i`, as `Array.prototype.splice(i, 1)`. */
  function RemoveAt<T>(s: seq<T>, i: nat): (t: seq<T>)
    requires i < |s|
    ensures |t| == |s| - 1
    ensures forall k :: 0 <= k < i ==> t[k] == s[k]
    ensures forall k :: i <= k < |t| ==> t[k] == s[k + 1]
  {
    s[..i] + s[i + 1..]
  }

  /** The asteroid list after pushing `kids` and splicing out `index`:
      one element fewer than the list with the children, which end it. */
  function Shatter(s: seq<Asteroid>, index: nat, kids: seq<Asteroid>): (t: seq<Asteroid>)
    requires index < |s|
    ensures |t| == |s| + |kids| - 1
    ensures t[|s| - 1..] == kids
  {
    RemoveAt(s + kids, index)
  }

  /** The other asteroids keep their relative order, and the children
      follow them. */
  lemma ShatterLayout(s: seq<Asteroid>, index: nat, kids: seq<Asteroid>)
    requires index < |s|
    ensures Shatter(s, index, kids) == s[..index] + s[index + 1..] + kids
    ensures |Shatter(s, index, kids)| == |s| + |kids| - 1
  {
    var t := Shatter(s, index, kids);
    assert (s + kids)[index + 1..] == s[index + 1..] + kids;
    assert (s + kids)[..index] == s[..index];
  }

  lemma ShatterTiered(s: seq<Asteroid>, index: nat, kids: seq<Asteroid>)
    requires index < |s| && AllTiered(s) && AllTiered(kids)
    ensures AllTiered(Shatter(s, index, kids))
  {
    var t := Shatter(s, index, kids);
    forall k | 0 <= k < |t| ensures Tiered(t[k].r) {
      var j := if k < index then k else k + 1;
      assert t[k] == (s + kids)[j];
    }
  }

  /** A new belt of `n` large asteroids: the `i`-th at `spots[i]`, built
      from `draws[i]`. */
  function Belt(spots: seq<Spot>, draws: seq<AsteroidDraws>, level: nat, n: nat): (b: seq<Asteroid>)
    requires n <= |spots| && n <= |draws|
    requires forall i :: 0 <= i < n ==> ValidDraws(draws[i])
    ensures |b| == n
    ensures forall i :: 0 <= i < n ==>
              b[i] == NewAsteroid(spots[i].x, spots[i].y, LARGE, level, draws[i])
    decreases n
  {
    if n == 0 then []
    else Belt(spots, draws, level, n - 1) + [NewAsteroid(spots[n - 1].x, spots[n - 1].y, LARGE, level, draws[n - 1])]
  }

  /** The randomness a belt of `n` asteroids consumes is available. */
  predicate BeltDrawsReady(spots: seq<Spot>, draws: seq<AsteroidDraws>, n: nat) {
    n <= |spots| && n <= |draws| && forall i :: 0 <= i < n ==> ValidDraws(draws[i])
  }

  /** The first `n` spots are points the belt generator can draw on a
      `width` by `height` canvas, and each passes the placement test for
      ship `s`. */
  predicate SpotsClear(s: Ship, spots: seq<Spot>, n: nat, width: real, height: real) {
    n <= |spots| && forall i :: 0 <= i < n ==> OnGrid(spots[i], width, height) && ClearOfShip(s, spots[i])
  }

  lemma BeltShape(s: Ship, spots: seq<Spot>, draws: seq<AsteroidDraws>, level: nat, n: nat,
                  width: real, height: real)
    requires BeltDrawsReady(spots, draws, n) && SpotsClear(s, spots, n, width, height)
    ensures var b := Belt(spots, draws, level, n);
            AllTiered(b) &&
            forall i :: 0 <= i < n ==>
              b[i].r == LARGE && OnGrid(Spot(b[i].x, b[i].y), width, height) && ClearOfShip(s, Spot(b[i].x, b[i].y))
  {
    var b := Belt(spots, draws, level, n);
    forall i | 0 <= i < n
      ensures b[i].r == LARGE && OnGrid(Spot(b[i].x, b[i].y), width, height) && ClearOfShip(s, Spot(b[i].x, b[i].y))
    {
      assert Spot(b[i].x, b[i].y) == spots[i];
    }
  }

  /** The asteroid list and level after asteroid `index` is destroyed:
      the list after the split, or, if that leaves it empty, the next
      level's belt. */
  function AfterDestroy(s: seq<Asteroid>, level: nat, index: nat, d1: AsteroidDraws, d2: AsteroidDraws,
                        spots: seq<Spot>, draws: seq<AsteroidDraws>): (res: (seq<Asteroid>, nat))
    requires index < |s| && ValidDraws(d1) && ValidDraws(d2)
    requires BeltDrawsReady(spots, draws, ASTEROID_NUM + level + 1)
    ensures res.0 != []
    ensures res.1 == level || res.1 == level + 1
    ensures res.1 == level + 1 ==> res.0 == Belt(spots, draws, res.1, ASTEROID_NUM + res.1)
    ensures res.1 == level ==> |res.0| + 1 == |s| + |Children(s[index], level, d1, d2)|
  {
    var rest := Shatter(s, index, Children(s[index], level, d1, d2));
    if rest == [] then (Belt(spots, draws, level + 1, ASTEROID_NUM + level + 1), level + 1)
    else (rest, level)
  }

  /** A large asteroid is replaced by two medium ones at its position, and
      the list grows by one. */
  lemma DestroyLarge(s: seq<Asteroid>, level: nat, index: nat, d1: AsteroidDraws, d2: AsteroidDraws,
                     spots: seq<Spot>, draws: seq<AsteroidDraws>)
    requires index < |s| && ValidDraws(d1) && ValidDraws(d2)
    requires BeltDrawsReady(spots, draws, ASTEROID_NUM + level + 1)
    requires s[index].r == LARGE
    ensures var (t, lv) := AfterDestroy(s, level, index, d1, d2, spots, draws);
            && lv == level && |t| == |s| + 1
            && t[..|s| - 1] == s[..index] + s[index + 1..]
            && t[|s| - 1] == NewAsteroid(s[index].x, s[index].y, MEDIUM, level, d1)
            && t[|s|] == NewAsteroid(s[index].x, s[index].y, MEDIUM, level, d2)
  {
    var kids := Children(s[index], level, d1, d2);
    ShatterLayout(s, index, kids);
  }

  /** A medium asteroid is replaced by two small ones at its position, and
      the list grows by one. */
  lemma DestroyMedium(s: seq<Asteroid>, level: nat, index: nat, d1: AsteroidDraws, d2: AsteroidDraws,
                      spots: seq<Spot>, draws: seq<AsteroidDraws>)
    requires index < |s| && ValidDraws(d1) && ValidDraws(d2)
    requires BeltDrawsReady(spots, draws, ASTEROID_NUM + level + 1)
    requires s[index].r == MEDIUM
    ensures var (t, lv) := AfterDestroy(s, level, index, d1, d2, spots, draws);
            && lv == level && |t| == |s| + 1
            && t[..|s| - 1] == s[..index] + s[index + 1..]
            && t[|s| - 1] == NewAsteroid(s[index].x, s[index].y, SMALL, level, d1)
            && t[|s|] == NewAsteroid(s[index].x, s[index].y, SMALL, level, d2)
  {
    var kids := Children(s[index], level, d1, d2);
    TierRadii();
    ShatterLayout(s, index, kids);
  }

  /** Any other asteroid just disappears; if it was the last one, the level
      rises by one and the next belt replaces the empty list. */
  lemma DestroySmall(s: seq<Asteroid>, level: nat, index: nat, d1: AsteroidDraws, d2: AsteroidDraws,
                     spots: seq<Spot>, draws: seq<AsteroidDraws>)
    requires index < |s| && ValidDraws(d1) && ValidDraws(d2)
    requires BeltDrawsReady(spots, draws, ASTEROID_NUM + level + 1)
    requires s[index].r != LARGE && s[index].r != MEDIUM
    ensures var (t, lv) := AfterDestroy(s, level, index, d1, d2, spots, draws);
            if |s| > 1 then lv == level && t == s[..index] + s[index + 1..]
            else lv == level + 1 && t == Belt(spots, draws, level + 1, ASTEROID_NUM + level + 1)
  {
    var kids := Children(s[index], level, d1, d2);
    ShatterLayout(s, index, kids);
  }

  /** The level rises (by exactly one) exactly when the last asteroid,
      a small one, is destroyed; the list is never left empty. */
  lemma DestroyLevelRule(s: seq<Asteroid>, level: nat, index: nat, d1: AsteroidDraws, d2: AsteroidDraws,
                         spots: seq<Spot>, draws: seq<AsteroidDraws>)
    requires index < |s| && ValidDraws(d1) && ValidDraws(d2)
    requires BeltDrawsReady(spots, draws, ASTEROID_NUM + level + 1)
    ensures var (t, lv) := AfterDestroy(s, level, index, d1, d2, spots, draws);
            && t != []
            && (lv == level || lv == level + 1)
            && (lv == level + 1 <==> |s| == 1 && s[index].r != LARGE && s[index].r != MEDIUM)
            && (lv == level + 1 ==> |t| == ASTEROID_NUM + lv)
  {
    var kids := Children(s[index], level, d1, d2);
    ShatterLayout(s, index, kids);
  }

  /** Destroying an asteroid keeps every radius among the three tiers. */
  lemma DestroyKeepsTiers(s: seq<Asteroid>, level: nat, index: nat, d1: AsteroidDraws, d2: AsteroidDraws,
                          spots: seq<Spot>, draws: seq<AsteroidDraws>)
    requires index < |s| && ValidDraws(d1) && ValidDraws(d2)
    requires BeltDrawsReady(spots, draws, ASTEROID_NUM + level + 1)
    requires AllTiered(s)
    ensures AllTiered(AfterDestroy(s, level, index, d1, d2, spots, draws).0)
  {
    var kids := Children(s[index], level, d1, d2);
    ShatterTiered(s, index, kids);
    var b := Belt(spots, draws, level + 1, ASTEROID_NUM + level + 1);
    assert forall i :: 0 <= i < |b| ==> b[i].r == LARGE;
  }

  // ---------------------------------------------------------------------
  // Ship collisions and the timers an explosion schedules.

  /** How many asteroids of `s` overlap the ship: at most all of them,
      and at least one when the last one does. */
  function CountOverlaps(ship: Ship, s: seq<Asteroid>): (c: nat)
    ensures c <= |s|
    ensures s != [] && ShipOverlaps(ship, s[|s| - 1]) ==> c >= 1
    decreases |s|
  {
    if s == [] then 0
    else CountOverlaps(ship, s[..|s| - 1]) + (if ShipOverlaps(ship, s[|s| - 1]) then 1 else 0)
  }

  /** The count is at most the number of asteroids, zero exactly when none
      overlaps, and full exactly when all do. */
  lemma {:induction false} CountOverlapsRange(ship: Ship, s: seq<Asteroid>)
    ensures CountOverlaps(ship, s) <= |s|
    ensures CountOverlaps(ship, s) == 0 <==> forall i :: 0 <= i < |s| ==> !ShipOverlaps(ship, s[i])
    ensures CountOverlaps(ship, s) == |s| <==> forall i :: 0 <= i < |s| ==> ShipOverlaps(ship, s[i])
    decreases |s|
  {
    if s != [] {
      var init := s[..|s| - 1];
      CountOverlapsRange(ship, init);
      assert forall i :: 0 <= i < |init| ==> init[i] == s[i];
    }
  }

  lemma CountOverlapsStep(ship: Ship, s: seq<Asteroid>, i: nat)
    requires i < |s|
    ensures CountOverlaps(ship, s[..i + 1]) ==
              CountOverlaps(ship, s[..i]) + if ShipOverlaps(ship, s[i]) then 1 else 0
  {
    assert s[..i + 1][..i] == s[..i];
  }

  /** What a death schedules: the end of the game once lives have run out,
      otherwise a respawn. */
  datatype Timer = Respawn | EndGame

  function TimerAfter(lives: int): (t: Timer)
    ensures t == EndGame <==> lives <= 0
  {
    if lives <= 0 then EndGame else Respawn
  }

  /** The timers `n` deaths in a row schedule, starting from `lives`. */
  function ExplosionTimers(lives: int, n: nat): (ts: seq<Timer>)
    ensures |ts| == n
    ensures forall k :: 0 <= k < n ==> ts[k] == TimerAfter(lives - (k + 1))
    decreases n
  {
    if n == 0 then [] else ExplosionTimers(lives, n - 1) + [TimerAfter(lives - n)]
  }

  // ---------------------------------------------------------------------
  // Lasers.

  /** `step` is the length of the laser's velocity vector. */
  predicate StepLength(l: Laser, step: real) {
    step >= 0.0 && Square(step) == Square(l.xv) + Square(l.yv)
  }

  /** One frame of laser motion: advance, and add the distance covered. */
  function Advance(l: Laser, step: real): (m: Laser)
    requires StepLength(l, step)
    ensures m.xv == l.xv && m.yv == l.yv
    ensures m.x - l.x == l.xv && m.y - l.y == l.yv
    ensures m.dist >= l.dist && Square(m.dist - l.dist) == Square(l.xv) + Square(l.yv)
  {
    Laser(l.x + l.xv, l.y + l.yv, l.xv, l.yv, l.dist + step)
  }

  /** The laser has flown further than LASER_DIST of the canvas width;
      on a canvas of any width, a laser that has not flown yet has not. */
  predicate Expired(l: Laser, width: real): (b: bool)
    ensures 0.0 <= width && l.dist <= 0.0 ==> !b
  {
    l.dist > LASER_DIST * width
  }

  function WrapLaser(l: Laser, width: real, height: real): (m: Laser)
    ensures m == l.(x := m.x, y := m.y)
    ensures 0.0 <= width ==> 0.0 <= m.x <= width
    ensures 0.0 <= height ==> 0.0 <= m.y <= height
    ensures 0.0 <= l.x <= width && 0.0 <= l.y <= height ==> m == l
  {
    l.(x := WrapEdge(l.x, width), y := WrapEdge(l.y, height))
  }

  /** `splice(i, 1)`, which removes nothing when `i` is past the end. */
  function Splice(s: seq<Laser>, i: nat): (t: seq<Laser>)
    ensures i < |s| ==> t == RemoveAt(s, i)
    ensures i >= |s| ==> t == s
  {
    if i < |s| then RemoveAt(s, i) else s
  }

  /** The laser list after laser `i` has moved to `l`, as game.js:243-260
      writes it: a hit splices index `i`, and expiry splices index `i`
      again, whether or not the hit already removed that laser. */
  function LaserListAsWritten(lasers: seq<Laser>, i: nat, l: Laser, hit: bool,
                              width: real, height: real): (t: seq<Laser>)
    requires i < |lasers|
    ensures |lasers| - 2 <= |t| <= |lasers|
    ensures !hit && !Expired(l, width) ==> |t| == |lasers|
  {
    var moved := lasers[i := l];
    var afterHit := if hit then RemoveAt(moved, i) else moved;
    if Expired(l, width) then Splice(afterHit, i)
    else if hit then afterHit
    else afterHit[i := WrapLaser(l, width, height)]
  }

  /** As written, a laser that hits and expires in the same frame takes
      the laser after it along; only the last laser in the list escapes
      this, because the second splice then finds nothing. */
  lemma DoubleSpliceDropsNext(lasers: seq<Laser>, i: nat, l: Laser, width: real, height: real)
    requires i < |lasers| && Expired(l, width)
    ensures i + 1 < |lasers| ==>
              LaserListAsWritten(lasers, i, l, true, width, height) == lasers[..i] + lasers[i + 2..]
    ensures i + 1 == |lasers| ==>
              LaserListAsWritten(lasers, i, l, true, width, height) == lasers[..i]
  {
  }

  /** One input that shows it: of two lasers, the first hits an asteroid
      in the frame its range runs out, and none is left. */
  lemma DoubleSpliceDropsNeighbour()
    ensures var l0 := Laser(0.0, 0.0, 0.0, 0.0, 10.0);
            var l1 := Laser(5.0, 5.0, 0.0, 0.0, 0.0);
            LaserListAsWritten([l0, l1], 0, l0, true, 10.0, 10.0) == []
  {
  }

  /** The laser list after laser `i` has moved to `l`: a laser that hits an
      asteroid or has flown its range is removed, otherwise it wraps; all
      other lasers stay, in order. */
  function LaserList(lasers: seq<Laser>, i: nat, l: Laser, hit: bool,
                     width: real, height: real): (t: seq<Laser>)
    requires i < |lasers|
    ensures (hit || Expired(l, width)) ==> t == lasers[..i] + lasers[i + 1..]
    ensures !(hit || Expired(l, width)) ==>
              |t| == |lasers| && t[i] == WrapLaser(l, width, height) &&
              forall k :: 0 <= k < |t| && k != i ==> t[k] == lasers[k]
  {
    if hit || Expired(l, width) then RemoveAt(lasers, i)
    else lasers[i := WrapLaser(l, width, height)]
  }

  /** The two agree on every frame except one where a laser that is not
      the last hits and expires at once. */
  lemma LaserListAgreement(lasers: seq<Laser>, i: nat, l: Laser, hit: bool, width: real, height: real)
    requires i < |lasers|
    ensures !(hit && Expired(l, width) && i + 1 < |lasers|) <==>
              LaserListAsWritten(lasers, i, l, hit, width, height) == LaserList(lasers, i, l, hit, width, height)
  {
    var moved := lasers[i := l];
    assert RemoveAt(moved, i) == RemoveAt(lasers, i);
    if hit && Expired(l, width) && i + 1 < |lasers| {
      assert |LaserListAsWritten(lasers, i, l, hit, width, height)| == |lasers| - 2;
    }
  }
}
