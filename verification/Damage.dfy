/** What happens to a worm or a box (sharedFiles/src/lombric.cpp, healthBox.cpp): explosions, whose damage
    Arena computes without a square root and which is shown here to be the rounded quotient of
    Lombric_c::explosed; flights and falls; and healing. */
module Damage {
  import opened Options
  import opened Physics
  import opened Terrain
  import opened Arena

  function Scaled(amount: int, radius: int, distance: real): real
    requires radius > 0
  {
    amount as real * (radius as real - distance) / radius as real
  }

  /** The test of Share, on integers. */
  predicate Enough(amount: nat, radius: int, dist2: nat, k: int) {
    4 * amount * amount * dist2 <= (2 * (amount - k) + 1) * (2 * (amount - k) + 1) * radius * radius
  }

  // ---------------------------------------------------------------- products of reals

  function Product(a: real, b: real): real {
    a * b
  }

  lemma Distributes(a: real, b: real, r: real)
    ensures Product(a + b, r) == Product(a, r) + Product(b, r)
    ensures Product(a - b, r) == Product(a, r) - Product(b, r)
  {
  }

  lemma Multiples(a: real, r: real)
    ensures Product(2.0 * a, r) == 2.0 * Product(a, r)
    ensures Product(-a, r) == -Product(a, r)
    ensures Product(1.0, r) == r && Product(0.5, r) == r / 2.0 && Product(0.0, r) == 0.0
  {
  }

  lemma Positive(a: real, b: real)
    ensures a > 0.0 && b > 0.0 ==> Product(a, b) > 0.0
    ensures a >= 0.0 && b >= 0.0 ==> Product(a, b) >= 0.0
  {
  }

  lemma Grows(a: real, b: real, r: real)
    requires r > 0.0
    ensures a <= b <==> Product(a, r) <= Product(b, r)
  {
    hide Product;
    Distributes(a, b, r);
    Distributes(b, a, r);
    Positive(b - a, r);
    Positive(a - b, r);
  }

  lemma Commutes(a: real, b: real)
    ensures Product(a, b) == Product(b, a)
  {
  }

  lemma SquaresOrder(a: real, b: real)
    requires a >= 0.0 && b >= 0.0
    ensures Product(a, a) <= Product(b, b) <==> a <= b
  {
    hide Product;
    if a > 0.0 {
      Grows(a, b, a);
    }
    if b > 0.0 {
      Grows(a, b, b);
    }
    Commutes(a, b);
    Multiples(a, a);
    Multiples(b, b);
    Positive(a, a);
    Positive(b, b);
  }

  lemma QuotientTimes(x: real, r: real)
    requires r > 0.0
    ensures Product(x / r, r) == x
  {
  }

  // ---------------------------------------------------------------- the test

  /** Both sides of the test are squares. */
  lemma EnoughIsSquares(amount: nat, radius: int, dist2: nat, distance: real, k: int)
    requires distance * distance == dist2 as real
    ensures var a, b := Product(2.0 * amount as real, distance), Product((2 * (amount - k) + 1) as real, radius as real);
            Enough(amount, radius, dist2, k) <==> Product(a, a) <= Product(b, b)
  {
    var n, c := amount as real, (2 * (amount - k) + 1) as real;
    calc {
      (2.0 * n * distance) * (2.0 * n * distance);
      4.0 * n * n * (distance * distance);
      (4 * amount * amount * dist2) as real;
    }
    calc {
      (c * radius as real) * (c * radius as real);
      c * c * radius as real * radius as real;
      ((2 * (amount - k) + 1) * (2 * (amount - k) + 1) * radius * radius) as real;
    }
  }

  lemma ScaledTimes(amount: int, radius: int, distance: real)
    requires radius > 0
    ensures Product(Scaled(amount, radius, distance), radius as real)
         == Product(amount as real, radius as real) - Product(amount as real, distance)
  {
    QuotientTimes(amount as real * (radius as real - distance), radius as real);
    Commutes(amount as real, radius as real - distance);
    Distributes(radius as real, distance, amount as real);
    Commutes(amount as real, radius as real);
    Commutes(amount as real, distance);
    ProductIs(amount as real, radius as real - distance);
    hide Product;
  }

  lemma ProductIs(a: real, b: real)
    ensures a * b == Product(a, b)
  {
  }

  lemma ScaledAtLeast(amount: nat, radius: int, distance: real, k: int)
    requires radius > 0
    ensures k as real <= Scaled(amount, radius, distance) + 0.5 <==>
            Product(2.0 * amount as real, distance) <= Product((2 * (amount - k) + 1) as real, radius as real)
  {
    hide Product, Scaled;
    var r, n, l, q := radius as real, amount as real, k as real, Scaled(amount, radius, distance);
    ScaledTimes(amount, radius, distance);
    Grows(l, q + 0.5, r);
    Distributes(q, 0.5, r);
    Multiples(n, distance);
    Multiples(n, r);
    Multiples(l, r);
    Distributes(2.0 * n, 2.0 * l, r);
    Distributes(2.0 * n - 2.0 * l, 1.0, r);
    assert (2 * (amount - k) + 1) as real == 2.0 * n - 2.0 * l + 1.0;
  }

  lemma EnoughIff(amount: nat, radius: int, dist2: nat, distance: real, k: int)
    requires radius > 0 && distance >= 0.0 && distance * distance == dist2 as real && k <= amount
    ensures Enough(amount, radius, dist2, k) <==> k as real <= Scaled(amount, radius, distance) + 0.5
  {
    hide Enough, Scaled, Product;
    EnoughIsSquares(amount, radius, dist2, distance, k);
    ScaledAtLeast(amount, radius, distance, k);
    Positive(2.0 * amount as real, distance);
    Positive((2 * (amount - k) + 1) as real, radius as real);
    SquaresOrder(Product(2.0 * amount as real, distance), Product((2 * (amount - k) + 1) as real, radius as real));
  }

  lemma ScaledBetween(amount: int, radius: int, distance: real)
    requires amount >= 0 && radius > 0 && 0.0 <= distance <= radius as real
    ensures 0.0 <= Scaled(amount, radius, distance) <= amount as real
    ensures Scaled(-amount, radius, distance) == -Scaled(amount, radius, distance)
  {
    hide Product, Scaled;
    var r, n, q, q' := radius as real, amount as real, Scaled(amount, radius, distance), Scaled(-amount, radius, distance);
    ScaledTimes(amount, radius, distance);
    ScaledTimes(-amount, radius, distance);
    Positive(n, distance);
    Positive(r - distance, n);
    Distributes(r, distance, n);
    Commutes(n, r);
    Commutes(n, distance);
    Multiples(q, r);
    Multiples(n, r);
    Multiples(n, distance);
    Grows(0.0, q, r);
    Grows(q, n, r);
    Grows(q', -q, r);
    Grows(-q, q', r);
    assert (-amount) as real == -n;
  }

  lemma RoundBetween(q: real, n: int)
    requires 0.0 <= q <= n as real
    ensures 0 <= Round(q) <= n && Round(-q) == -Round(q)
  {
  }

  lemma ScaledBounds(amount: int, radius: int, distance: real)
    requires amount >= 0 && radius > 0 && 0.0 <= distance <= radius as real
    ensures 0 <= Round(Scaled(amount, radius, distance)) <= amount
    ensures Round(Scaled(-amount, radius, distance)) == -Round(Scaled(amount, radius, distance))
  {
    hide Scaled, Round;
    ScaledBetween(amount, radius, distance);
    RoundBetween(Scaled(amount, radius, distance), amount);
  }

  lemma {:induction false} ShareIsRound(amount: nat, radius: int, dist2: nat, distance: real, k: nat)
    requires radius > 0 && 0.0 <= distance <= radius as real && distance * distance == dist2 as real
    requires Round(Scaled(amount, radius, distance)) <= k <= amount
    ensures Share(amount, radius, dist2, k) == Round(Scaled(amount, radius, distance))
  {
    hide Scaled;
    ScaledBounds(amount, radius, distance);
    EnoughIff(amount, radius, dist2, distance, k);
    if k > Round(Scaled(amount, radius, distance)) {
      ShareIsRound(amount, radius, dist2, distance, k - 1);
    }
  }

  /** A worm in reach takes the rounded share of the damage that its distance leaves, also when the damage
      is negative. */
  lemma FalloffIsRound(damage: int, radius: int, dist2: nat, distance: real)
    requires radius > 0 && 0.0 <= distance <= radius as real && distance * distance == dist2 as real
    ensures Falloff(damage, radius, dist2) == Round(Scaled(damage, radius, distance))
  {
    var amount := if damage >= 0 then damage else -damage;
    hide Scaled, Share;
    ScaledBounds(amount, radius, distance);
    ShareIsRound(amount, radius, dist2, distance, amount);
  }

  // ---------------------------------------------------------------- the throw

  /** Speed v, in whole cells per second, goes away from the centre at offset d, or nowhere. */
  predicate Outward(v: int, d: int, radius: int) {
    && (d >= 0 ==> 0 <= v * radius <= BLAST_SPEED * d < v * radius + radius)
    && (d <= 0 ==> v * radius - radius < BLAST_SPEED * d <= v * radius <= 0)
  }

  /** An explosion reaches the worms whose distance from the centre is at most its radius; it takes the rounded
      share of the damage, up to the maximum of life, and throws the worm away from the centre, with a speed of
      10 at the rim, from the cell it is in. It changes nothing else, and no other worm. */
  lemma ExplosedMeaning(b: Body, cx: int, cy: int, radius: Radius, damage: int, t: int, distance: real) returns (vx: int, vy: int)
    requires b.kind.Lombric? && distance >= 0.0
    requires distance * distance == ((b.x - cx) * (b.x - cx) + (b.y - cy) * (b.y - cy)) as real
    ensures var b' := Explosed(b, cx, cy, radius, damage, t);
            if distance > radius as real then b' == b
            else
              var life := b.life + Round(damage as real * (radius as real - distance) / radius as real);
              && b' == b.(life := if life <= b.kind.maxLife then life else b.kind.maxLife,
                          motion := Some(Motion(b.x, b.y, vx as real, vy as real, 25, t)))
              && Outward(vx, b.x - cx, radius) && Outward(vy, b.y - cy, radius)
  {
    hide Falloff, Quotient, Round, Outward;
    var dist2 := (b.x - cx) * (b.x - cx) + (b.y - cy) * (b.y - cy);
    Reaches(dist2, distance, radius);
    if distance <= radius as real {
      FalloffIsRound(damage, radius, dist2, distance);
    }
    vx, vy := Quotient(BLAST_SPEED * (b.x - cx), radius), Quotient(BLAST_SPEED * (b.y - cy), radius);
    ThrownOutward(b.x - cx, radius);
    ThrownOutward(b.y - cy, radius);
  }

  lemma Reaches(dist2: int, distance: real, radius: Radius)
    requires distance >= 0.0 && distance * distance == dist2 as real
    ensures dist2 >= 0 && (dist2 <= radius * radius <==> distance <= radius as real)
  {
    SquaresOrder(distance, radius as real);
    Positive(distance, distance);
  }

  lemma ThrownOutward(d: int, radius: Radius)
    ensures Outward(Quotient(BLAST_SPEED * d, radius), d, radius)
  {
    QuotientMeaning(BLAST_SPEED * d, radius);
    hide Quotient;
  }

  // ---------------------------------------------------------------- falls

  /** A worm dies in or just over the water, above the map, or when nothing is left of its life. */
  function LifeLeft(g: Grid, y: int, life: int): int {
    if Drowned(g, y) || life <= 0 then 0 else life
  }

  /** With AIR just below it a worm at rest starts to fall. */
  function MotionAtRest(g: Grid, b: Body, t: int): Option<Motion> {
    if Is(g, b.x, b.y + 1, AIR) then Some(Motion(b.x, b.y, 0.0, 0.0, 25, t)) else None
  }

  /** The end of a movement: the worm stays in its cell; at a speed of 14.14 or more it loses its speed, and
      what is left is rounded toward zero. */
  lemma LandingMeaning(g: Grid, b: Body, t: int) returns (life: int)
    requires b.kind.Lombric? && b.motion.Some? && Hits(g, b.motion.value, t)
    ensures WormUpdate(g, b, t) == b.(life := LifeLeft(g, b.y, life), motion := MotionAtRest(g, b, t))
    ensures var v := SpeedYAt(b.motion.value, t);
            && (v < 14.14 ==> life == b.life)
            && (v >= 14.14 && b.life as real - v >= 0.0 ==> life as real <= b.life as real - v < life as real + 1.0)
            && (v >= 14.14 && b.life as real - v <= 0.0 ==> life as real - 1.0 < b.life as real - v <= life as real <= 0.0)
  {
    var v := SpeedYAt(b.motion.value, t);
    TruncateMeaning(b.life as real - v);
    life := Impact(b.life, v);
    hide Truncate, SpeedYAt, XAt, YAt, Drowned;
  }

  /** A worm that flies on takes the cell of its trajectory. */
  lemma FlightMeaning(g: Grid, b: Body, t: int)
    requires b.kind.Lombric? && b.motion.Some? && !Hits(g, b.motion.value, t)
    ensures var x, y := XAt(b.motion.value, t), YAt(b.motion.value, t);
            WormUpdate(g, b, t) == b.(x := x, y := y, life := LifeLeft(g, y, b.life))
  {
    hide XAt, YAt, Drowned;
  }

  lemma RestMeaning(g: Grid, b: Body, t: int)
    requires b.kind.Lombric? && b.motion.None?
    ensures WormUpdate(g, b, t) == b.(life := LifeLeft(g, b.y, b.life), motion := MotionAtRest(g, b, t))
  {
    hide Drowned;
  }

  /** A health box flies and falls like a worm, but falls with a gravity of 6. */
  lemma BoxMeaning(g: Grid, b: Body, t: int)
    requires b.kind.Box?
    ensures BoxMove(g, b, t) ==
            if b.motion.Some? && !Hits(g, b.motion.value, t)
            then b.(x := XAt(b.motion.value, t), y := YAt(b.motion.value, t))
            else b.(motion := if Is(g, b.x, b.y + 1, AIR) then Some(Motion(b.x, b.y, 0.0, 0.0, 6, t)) else None)
  {
    hide XAt, YAt;
  }

  predicate WormOn(b: Body, cell: Body) {
    IsWorm(b) && b.x == cell.x && b.y == cell.y
  }

  /** A box is used up by the first worm on its new cell, j, which gains its health up to the maximum of life;
      nobody else is touched, and the turn goes on. Without such a worm the box stays. */
  lemma BoxTurnMeaning(w: World, k: nat, t: int) returns (j: nat)
    requires k < |w.bodies| && w.bodies[k].kind.Box? && !BoxLost(w.grid, w.bodies[k], t) && w.bodies[k].id == 0
    ensures var o, box := StepAt(w, k, t), BoxMove(w.grid, w.bodies[k], t);
            && (o.alive <==> forall i :: 0 <= i < |w.bodies| ==> !WormOn(w.bodies[i], box))
            && (o.alive ==> o == Outcome(w.(bodies := w.bodies[k := box]), true, box.motion.Some?))
            && (!o.alive ==>
                  && j < |w.bodies| && WormOn(w.bodies[j], box) && forall i :: 0 <= i < j ==> !WormOn(w.bodies[i], box))
            && (!o.alive ==>
                  var life := w.bodies[j].life + w.bodies[k].kind.health;
                  var healed := w.bodies[j].(life := if life <= w.bodies[j].kind.maxLife then life else w.bodies[j].kind.maxLife);
                  o == Outcome(w.(bodies := w.bodies[j := healed][..k] + w.bodies[j := healed][k + 1..]), false, true))
  {
    hide BoxMove, FirstWormAt, BoxLost;
    BoxMeaning(w.grid, w.bodies[k], t);
    var box := BoxMove(w.grid, w.bodies[k], t);
    var bodies := w.bodies[k := box];
    j := FirstWormAt(bodies, box.x, box.y);
    assert forall i :: 0 <= i < |bodies| && i != k ==> bodies[i] == w.bodies[i];
  }

  /** A fall from rest costs 25 for every whole second it has lasted; it has lasted one exactly if the worm
      would come to be 13 or more rows below its start. */
  lemma FallCosts(m: Motion, t: int, life: nat)
    requires FromRest(m) && m.gravity == 25 && OnTick(m, t) && m.y0 >= 0
    ensures Impact(life, SpeedYAt(m, t)) == life - 25 * (Ticks(m, t) / 40)
    ensures Ticks(m, t) >= 40 <==> YAt(m, t) >= m.y0 + 13
  {
    var n := Ticks(m, t);
    FallPosition(m, t);
    SecondsOfTicks(m, t);
    WholeSeconds(n);
    FirstSecondFall(n);
    hide *;
    SpeedOfFall(m, t, n / 40);
    ImpactIs(life, 25 * (n / 40));
  }

  lemma WholeSeconds(n: nat)
    ensures Truncate(n as real / 40.0) == n / 40
  {
    assert n == 40 * (n / 40) + n % 40;
    assert n as real / 40.0 == (n / 40) as real + (n % 40) as real / 40.0;
  }

  lemma FirstSecondFall(n: nat)
    ensures (Fallen(25, n) + 0.5).Floor >= 13 <==> n >= 40
  {
    assert n <= 39 ==> n * n <= 39 * 39;
    assert n >= 40 ==> n * n >= 1600;
  }

  lemma SpeedOfFall(m: Motion, t: int, seconds: int)
    requires m.vy == 0.0 && m.gravity == 25 && Truncate(Seconds(m, t)) == seconds
    ensures SpeedYAt(m, t) == (25 * seconds) as real
  {
    hide Truncate, Seconds;
  }

  lemma ImpactIs(life: nat, speed: nat)
    requires speed == 0 || speed >= 25
    ensures Impact(life, speed as real) == life - speed
  {
    assert life as real - speed as real == (life - speed) as real;
  }
}
