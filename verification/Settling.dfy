/** Partie::update (Server/src/partie_serv.cpp): the invariant that every pass over the sprites keeps, and
    a measure that every pass with movement lowers unless a worm hangs in a wall. */
module Settling {
  import opened Options
  import opened Physics
  import opened Terrain
  import opened Arena

  /** When the position of a moving sprite was last computed, if it is about to be updated at t. */
  function Last(m: Motion, t: int): int {
    if m.t0 > t - TICK then m.t0 else t - TICK
  }

  predicate Synced(b: Body, t: int) {
    b.motion.Some? ==>
      var m := b.motion.value;
      m.gravity > 0 && OnTick(m, t) && b.x == XAt(m, Last(m, t)) && b.y == YAt(m, Last(m, t))
  }

  predicate OnAir(g: Grid, b: Body) {
    Is(g, b.x, b.y, AIR)
  }

  /** A sprite that its next update finds in the cell it is in. */
  predicate Pinned(b: Body, t: int) {
    b.motion.Some? ==> XAt(b.motion.value, t) == b.x && YAt(b.motion.value, t) == b.y
  }

  /** What a sprite about to be updated at t satisfies. Worms may be inside walls. */
  predicate Fit(g: Grid, b: Body, t: int) {
    && Synced(b, t)
    && match b.kind
       case Lombric(maxLife) => b.life <= maxLife && (OnAir(g, b) || Pinned(b, t))
       case Projectile(_, _) => b.id == 0 && b.motion.Some?
       case Box(_) => b.id == 0 && OnAir(g, b)
  }

  /** The life a worm in a wall has after the end of its movement, if it was thrown. */
  function Struck(b: Body, t: int): int {
    if b.motion.None? then b.life else Impact(b.life, SpeedYAt(b.motion.value, t))
  }

  /** A worm in a wall that its update at t leaves alive and falling, without leaving its cell: it has
      AIR just below it. */
  predicate Hanging(g: Grid, b: Body, t: int) {
    && b.kind.Lombric? && !OnAir(g, b) && Pinned(b, t)
    && Is(g, b.x, b.y + 1, AIR) && !Drowned(g, b.y) && Struck(b, t) > 0
  }

  predicate NoProjectile(bodies: seq<Body>) {
    forall i :: 0 <= i < |bodies| ==> !bodies[i].kind.Projectile?
  }

  predicate AllOnAir(g: Grid, bodies: seq<Body>) {
    forall i :: 0 <= i < |bodies| ==> bodies[i].kind.Projectile? || OnAir(g, bodies[i])
  }

  /** When the sprite at index i is updated next, in a pass at time t that has come to index k. */
  function Due(k: nat, t: int, i: int): int {
    if i < k then t + TICK else t
  }

  /** The state of a pass at time t that has updated the sprites below index k. */
  predicate Inv(w: World, k: nat, t: int) {
    && w.grid.water < w.grid.height
    && forall i :: 0 <= i < |w.bodies| ==> Fit(w.grid, w.bodies[i], Due(k, t, i))
  }

  predicate NoneHangs(w: World, k: nat, t: int) {
    forall i :: 0 <= i < |w.bodies| ==> !Hanging(w.grid, w.bodies[i], Due(k, t, i))
  }

  /** No worm hangs, and no explosion can make one hang. */
  predicate Calm(w: World, k: nat, t: int) {
    AllOnAir(w.grid, w.bodies) || (NoProjectile(w.bodies) && NoneHangs(w, k, t))
  }

  // ---------------------------------------------------------------- the measure

  function Left(g: Grid, m: Motion, t: int): nat
    requires m.gravity > 0
  {
    var n := Landing(m, g.height) - Ticks(m, t);
    if n > 0 then n else 0
  }

  function Unit(g: Grid): nat {
    LongestFall(g.height) + 2
  }

  predicate Falling(g: Grid, m: Motion) {
    FromRest(m) && Is(g, m.x0, m.y0, AIR) && Is(g, m.x0, m.y0 + 1, AIR)
  }

  /** Rows a sprite may still fall, weighted so that each costs more than any one fall lasts. */
  function Weight(g: Grid, rows: int): nat {
    if rows <= 0 then 0 else rows * Unit(g)
  }

  function Effort(g: Grid, b: Body, t: int): nat {
    match b.motion
    case None => if b.kind.Projectile? || !OnAir(g, b) then 0 else Weight(g, g.height - b.y)
    case Some(m) =>
      if m.gravity <= 0 || (!b.kind.Projectile? && !OnAir(g, b)) then 0
      else if Falling(g, m) then Weight(g, g.height - m.y0 - 1) + Left(g, m, t) + 1
      else Weight(g, g.height) + Left(g, m, t) + 1
  }

  lemma WeightStep(g: Grid, rows: int)
    requires rows > 0
    ensures Weight(g, rows) == Weight(g, rows - 1) + Unit(g)
  {
    assert rows * Unit(g) == (rows - 1) * Unit(g) + Unit(g);
  }

  lemma WeightMonotone(g: Grid, a: int, b: int)
    requires a <= b
    ensures Weight(g, a) <= Weight(g, b)
  {
    if 0 < a {
      assert (b - a) * Unit(g) >= 0;
      assert b * Unit(g) == a * Unit(g) + (b - a) * Unit(g);
    }
  }

  /** A flight that goes on gets shorter. */
  lemma FlightShortens(g: Grid, m: Motion, t: int)
    requires m.gravity > 0 && OnTick(m, t) && !Hits(g, m, t)
    ensures OnTick(m, t + TICK) && Last(m, t + TICK) == t
    ensures Left(g, m, t + TICK) < Left(g, m, t)
  {
    if Ticks(m, t) >= Landing(m, g.height) {
      Lands(m, g.height, t);
    }
    assert t + TICK - m.t0 == (t - m.t0) + 25;
    assert Ticks(m, t + TICK) == Ticks(m, t) + 1;
  }

  /** A flight that ends leaves its sprite with less to do: a fall from rest ends at least one row lower. */
  lemma StopLowers(g: Grid, b: Body, t: int)
    requires b.motion.Some? && !b.kind.Projectile? && Synced(b, t) && OnAir(g, b)
    requires Hits(g, b.motion.value, t)
    ensures Weight(g, g.height - b.y) < Effort(g, b, t)
  {
    var m := b.motion.value;
    if Falling(g, m) {
      FallPosition(m, t);
      assert YAt(m, t) >= m.y0;
      if Ticks(m, t) == 0 {
        assert t == m.t0;
        StartsAt(m);
        assert false;
      }
      FallsRowByRow(m, t);
      assert Last(m, t) == t - TICK;
      WeightMonotone(g, g.height - b.y, g.height - m.y0 - 1);
    } else {
      WeightMonotone(g, g.height - b.y, g.height);
    }
  }

  /** Starting to fall costs less than the row below. */
  lemma DropLowers(g: Grid, b: Body, gravity: int, t: int)
    requires b.motion.None? && !b.kind.Projectile? && OnAir(g, b) && Is(g, b.x, b.y + 1, AIR)
    requires gravity == GRAVITY || gravity == BOX_GRAVITY
    ensures var d := Launch(b, 0.0, 0.0, gravity, t);
            Synced(d, t + TICK) && Effort(g, d, t + TICK) < Weight(g, g.height - b.y)
  {
    var m := Motion(b.x, b.y, 0.0, 0.0, gravity, t);
    StartsAt(m);
    FallsAreShort(m, g.height);
    assert Ticks(m, t + TICK) == 1;
    WeightStep(g, g.height - b.y);
  }

  lemma DropAtRest(g: Grid, b: Body, gravity: int, t: int)
    requires b.motion.None? && !b.kind.Projectile? && OnAir(g, b)
    requires gravity == GRAVITY || gravity == BOX_GRAVITY
    ensures var d := Drop(g, b, gravity, t);
            && Synced(d, t + TICK)
            && Effort(g, d, t + TICK) <= Weight(g, g.height - b.y)
            && (d.motion.Some? ==> Effort(g, d, t + TICK) < Weight(g, g.height - b.y))
            && (d.motion.None? ==> d == b && !Is(g, b.x, b.y + 1, AIR))
  {
    if Is(g, b.x, b.y + 1, AIR) {
      DropLowers(g, b, gravity, t);
    }
  }

  // ---------------------------------------------------------------- one sprite's update

  /** A fall of one tick does not leave its cell. */
  lemma OneTick(x: int, y: int, t: int)
    requires y >= 0
    ensures var m := Motion(x, y, 0.0, 0.0, GRAVITY, t);
            XAt(m, t + TICK) == x && YAt(m, t + TICK) == y && SpeedYAt(m, t + TICK) == 0.0
  {
    var m := Motion(x, y, 0.0, 0.0, GRAVITY, t);
    FallPosition(m, t + TICK);
    assert Ticks(m, t + TICK) == 1;
    assert Seconds(m, t + TICK) == 0.025;
  }

  /** The update of a worm in a wall: it stays in its cell, and it moves exactly if it hangs. */
  lemma WalledStep(g: Grid, b: Body, t: int)
    requires g.water < g.height && b.kind.Lombric? && !OnAir(g, b) && Fit(g, b, t)
    ensures var b' := WormUpdate(g, b, t);
            && b'.x == b.x && b'.y == b.y && b'.kind == b.kind && b'.id == b.id
            && b'.life == (if Drowned(g, b.y) || Struck(b, t) < 0 then 0 else Struck(b, t))
            && (b'.life != 0 ==>
                  && Fit(g, b', t + TICK)
                  && (b'.motion.Some? <==> Hanging(g, b, t))
                  && (b'.motion.None? ==> !Is(g, b.x, b.y + 1, AIR)))
            && (Hanging(g, b, t) ==> b'.life != 0 && Hanging(g, b', t + TICK) && Struck(b', t + TICK) == b'.life)
  {
    ImpactHurts(b.life, if b.motion.Some? then SpeedYAt(b.motion.value, t) else 0.0);
    var b' := WormUpdate(g, b, t);
    if Is(g, b.x, b.y + 1, AIR) && !Drowned(g, b.y) {
      assert b.y >= 0;
      OneTick(b.x, b.y, t);
      StartsAt(Motion(b.x, b.y, 0.0, 0.0, GRAVITY, t));
    }
  }

  lemma ImpactHurts(life: int, speed: real)
    ensures Impact(life, speed) <= life || (life < 0 && Impact(life, speed) <= 0)
  {
  }

  /** A living worm after its update: it keeps its invariant, and its effort shrinks if it moves and did
      not hang. */
  lemma WormStep(g: Grid, b: Body, t: int)
    requires g.water < g.height && b.kind.Lombric? && Fit(g, b, t)
    ensures var b' := WormUpdate(g, b, t);
            && b'.kind == b.kind && b'.id == b.id && b'.life >= 0
            && (b'.life != 0 ==>
                  && Fit(g, b', t + TICK)
                  && (OnAir(g, b) <==> OnAir(g, b'))
                  && !Drowned(g, b'.y)
                  && Effort(g, b', t + TICK) <= Effort(g, b, t)
                  && (b'.motion.Some? && !Hanging(g, b, t) ==> Effort(g, b', t + TICK) < Effort(g, b, t))
                  && (!Hanging(g, b, t) ==> !Hanging(g, b', t + TICK))
                  && (b'.motion.None? ==> b'.x == b.x && b'.y == b.y && !Is(g, b'.x, b'.y + 1, AIR)))
  {
    hide SpeedYAt, FromRest;
    if OnAir(g, b) {
      SpriteStep(g, b, GRAVITY, t);
    } else {
      WalledStep(g, b, t);
    }
  }

  /** Where a worm or a box standing on AIR is after its update, whatever its life. */
  function Updated(g: Grid, b: Body, gravity: int, t: int): Body {
    Drop(g,
         if b.motion.None? then b
         else if Hits(g, b.motion.value, t) then b.(motion := None)
         else b.(x := XAt(b.motion.value, t), y := YAt(b.motion.value, t)),
         gravity, t)
  }

  lemma SpriteStep(g: Grid, b: Body, gravity: int, t: int)
    requires !b.kind.Projectile? && Synced(b, t) && OnAir(g, b)
    requires gravity == GRAVITY || gravity == BOX_GRAVITY
    ensures var d := Updated(g, b, gravity, t);
            && Synced(d, t + TICK) && OnAir(g, d)
            && Effort(g, d, t + TICK) <= Effort(g, b, t)
            && (d.motion.Some? ==> Effort(g, d, t + TICK) < Effort(g, b, t))
            && (d.motion.None? ==> d.x == b.x && d.y == b.y && !Is(g, d.x, d.y + 1, AIR))
  {
    if b.motion.None? {
      DropAtRest(g, b, gravity, t);
    } else if Hits(g, b.motion.value, t) {
      StopLowers(g, b, t);
      DropAtRest(g, b.(motion := None), gravity, t);
    } else {
      FlightShortens(g, b.motion.value, t);
    }
  }

  lemma BoxStep(g: Grid, b: Body, t: int)
    requires b.kind.Box? && Fit(g, b, t)
    ensures !BoxLost(g, b, t)
    ensures var b' := BoxMove(g, b, t);
            && b'.kind == b.kind && b'.id == b.id
            && Fit(g, b', t + TICK) && OnAir(g, b')
            && Effort(g, b', t + TICK) <= Effort(g, b, t)
            && (b'.motion.Some? ==> Effort(g, b', t + TICK) < Effort(g, b, t))
            && (b'.motion.None? ==> b'.x == b.x && b'.y == b.y && !Is(g, b'.x, b'.y + 1, AIR))
  {
    SpriteStep(g, b, BOX_GRAVITY, t);
  }

  lemma MissileStep(g: Grid, b: Body, t: int)
    requires b.kind.Projectile? && Fit(g, b, t)
    ensures var m := b.motion.value;
            !Hits(g, m, t) ==>
              var b' := b.(x := XAt(m, t), y := YAt(m, t));
              Fit(g, b', t + TICK) && Effort(g, b', t + TICK) < Effort(g, b, t)
  {
    if !Hits(g, b.motion.value, t) {
      FlightShortens(g, b.motion.value, t);
    }
  }

  // ---------------------------------------------------------------- the measure of a pass

  function Missiles(bodies: seq<Body>): nat {
    if bodies == [] then 0 else (if bodies[0].kind.Projectile? then 1 else 0) + Missiles(bodies[1..])
  }

  lemma {:induction false} MissilesSameKinds(a: seq<Body>, b: seq<Body>)
    requires |a| == |b| && forall i :: 0 <= i < |a| ==> a[i].kind.Projectile? == b[i].kind.Projectile?
    ensures Missiles(a) == Missiles(b)
  {
    if a != [] {
      MissilesSameKinds(a[1..], b[1..]);
    }
  }

  lemma {:induction false} MissilesErased(bodies: seq<Body>, k: nat)
    requires k < |bodies|
    ensures Missiles(bodies) == Missiles(Erase(bodies, k)) + if bodies[k].kind.Projectile? then 1 else 0
  {
    if k == 0 {
      assert Erase(bodies, k) == bodies[1..];
    } else {
      assert Erase(bodies, k)[1..] == Erase(bodies[1..], k - 1);
      MissilesErased(bodies[1..], k - 1);
    }
  }

  /** The effort left to all sprites, the first k of which have been updated at t. */
  function TotalEffort(g: Grid, bodies: seq<Body>, k: nat, t: int): nat {
    if bodies == [] then 0
    else Effort(g, bodies[0], if k > 0 then t + TICK else t)
         + TotalEffort(g, bodies[1..], if k > 0 then k - 1 else 0, t)
  }

  lemma {:induction false} TotalEffortStep(g: Grid, bodies: seq<Body>, k: nat, t: int, b: Body)
    requires k < |bodies|
    ensures TotalEffort(g, bodies[k := b], k + 1, t) + Effort(g, bodies[k], t)
         == TotalEffort(g, bodies, k, t) + Effort(g, b, t + TICK)
  {
    var changed := bodies[k := b];
    if k == 0 {
      assert changed[1..] == bodies[1..];
    } else {
      assert changed[1..] == bodies[1..][k - 1 := b];
      TotalEffortStep(g, bodies[1..], k - 1, t, b);
    }
  }

  lemma {:induction false} TotalEffortNextPass(g: Grid, bodies: seq<Body>, t: int)
    ensures TotalEffort(g, bodies, |bodies|, t) == TotalEffort(g, bodies, 0, t + TICK)
  {
    if bodies != [] {
      TotalEffortNextPass(g, bodies[1..], t);
    }
  }

  /** Projectiles left, sprites left, effort left; compared lexicographically. */
  datatype Measure = Measure(missiles: nat, bodies: nat, effort: nat)

  function MeasureOf(w: World, k: nat, t: int): Measure {
    Measure(Missiles(w.bodies), |w.bodies|, TotalEffort(w.grid, w.bodies, k, t))
  }

  predicate Below(a: Measure, b: Measure) {
    a.missiles < b.missiles
    || (a.missiles == b.missiles && (a.bodies < b.bodies || (a.bodies == b.bodies && a.effort < b.effort)))
  }

  // ---------------------------------------------------------------- one iteration of a pass

  function NextIndex(o: Outcome, k: nat): nat {
    if o.alive then k + 1 else k
  }

  /** What one iteration does to the invariant and to the measure. */
  ghost predicate Progress(w: World, k: nat, t: int, w': World, k': nat, moving: bool) {
    && Inv(w', k', t)
    && (Below(MeasureOf(w', k', t), MeasureOf(w, k, t)) || MeasureOf(w', k', t) == MeasureOf(w, k, t))
    && (Calm(w, k, t) ==> Calm(w', k', t) && (moving ==> Below(MeasureOf(w', k', t), MeasureOf(w, k, t))))
  }

  /** An iteration that changes only the sprite at k, which stays. */
  lemma Advanced(w: World, k: nat, t: int, w': World, b': Body)
    requires Inv(w, k, t) && k < |w.bodies|
    requires w'.grid == w.grid && w'.bodies == w.bodies[k := b']
    requires b'.kind == w.bodies[k].kind && Fit(w.grid, b', t + TICK)
    requires OnAir(w.grid, w.bodies[k]) && !b'.kind.Projectile? ==> OnAir(w.grid, b')
    requires Effort(w.grid, b', t + TICK) <= Effort(w.grid, w.bodies[k], t)
    requires b'.motion.Some? && !Hanging(w.grid, w.bodies[k], t) ==> Effort(w.grid, b', t + TICK) < Effort(w.grid, w.bodies[k], t)
    requires !Hanging(w.grid, w.bodies[k], t) ==> !Hanging(w.grid, b', t + TICK)
    ensures Progress(w, k, t, w', k + 1, b'.motion.Some?)
  {
    hide Fit, Effort, Missiles, TotalEffort;
    MissilesSameKinds(w.bodies, w'.bodies);
    TotalEffortStep(w.grid, w.bodies, k, t, b');
    OnAirNeverHangs(w.grid, w.bodies[k], t);
  }

  lemma OnAirNeverHangs(g: Grid, b: Body, t: int)
    ensures OnAir(g, b) || b.kind.Projectile? ==> !Hanging(g, b, t)
  {
  }

  /** An iteration that removes the sprite at k after changing the others, but not their kinds. */
  lemma Removed(w: World, k: nat, t: int, u: World, w': World)
    requires Inv(w, k, t) && k < |w.bodies|
    requires |u.bodies| == |w.bodies| && w'.grid == u.grid && w'.bodies == Erase(u.bodies, k)
    requires u.grid.height == w.grid.height && u.grid.water == w.grid.water
    requires forall i :: 0 <= i < |w.bodies| ==> u.bodies[i].kind == w.bodies[i].kind
    requires forall i :: 0 <= i < |w.bodies| && i != k ==> Fit(u.grid, u.bodies[i], Due(k, t, i))
    requires AllOnAir(w.grid, w.bodies) ==>
               forall i :: 0 <= i < |w.bodies| && i != k ==> u.bodies[i].kind.Projectile? || OnAir(u.grid, u.bodies[i])
    requires NoProjectile(w.bodies) ==>
               forall i :: 0 <= i < |w.bodies| && i != k && Hanging(u.grid, u.bodies[i], Due(k, t, i)) ==>
                             Hanging(w.grid, w.bodies[i], Due(k, t, i))
    ensures Progress(w, k, t, w', k, true)
  {
    hide Fit, Missiles, TotalEffort, Hanging;
    MissilesSameKinds(w.bodies, u.bodies);
    MissilesErased(u.bodies, k);
    forall i | 0 <= i < |w'.bodies|
      ensures w'.bodies[i] == u.bodies[if i < k then i else i + 1]
    {
    }
  }

  lemma WormTurn(w: World, k: nat, t: int)
    requires Inv(w, k, t) && k < |w.bodies| && w.bodies[k].kind.Lombric?
    ensures var o := StepAt(w, k, t); Progress(w, k, t, o.world, NextIndex(o, k), o.moving)
  {
    hide WormUpdate, Fit, Effort, Hanging, Missiles, TotalEffort, Progress, OnAir;
    var b' := WormUpdate(w.grid, w.bodies[k], t);
    WormStep(w.grid, w.bodies[k], t);
    if b'.life != 0 {
      Advanced(w, k, t, StepAt(w, k, t).world, b');
    } else {
      Removed(w, k, t, w.(bodies := w.bodies[k := b']), StepAt(w, k, t).world);
    }
  }

  lemma BoxTurn(w: World, k: nat, t: int)
    requires Inv(w, k, t) && k < |w.bodies| && w.bodies[k].kind.Box?
    ensures var o := StepAt(w, k, t); Progress(w, k, t, o.world, NextIndex(o, k), o.moving)
  {
    hide BoxMove, BoxLost, Fit, Effort, Missiles, TotalEffort, Progress;
    var b := w.bodies[k];
    BoxStep(w.grid, b, t);
    var b' := BoxMove(w.grid, b, t);
    var bodies := w.bodies[k := b'];
    var j := FirstWormAt(bodies, b'.x, b'.y);
    if j < |bodies| {
      var healed := bodies[j := AddLife(bodies[j], b.kind.health)];
      HealedFits(w.grid, w.bodies[j], b.kind.health, Due(k, t, j));
      Removed(w, k, t, w.(bodies := healed), StepAt(w, k, t).world);
    } else {
      Advanced(w, k, t, StepAt(w, k, t).world, b');
    }
  }

  lemma HealedFits(g: Grid, b: Body, health: int, t: int)
    requires b.kind.Lombric? && Fit(g, b, t) && OnAir(g, b)
    ensures Fit(g, AddLife(b, health), t) && OnAir(g, AddLife(b, health)) && !Hanging(g, AddLife(b, health), t)
  {
  }

  /** An explosion throws a worm so slowly that it is still in its cell one tick later. */
  lemma ThrownIsPinned(b: Body, cx: int, cy: int, radius: Radius, damage: int, t: int)
    requires b.kind.Lombric?
    requires (b.x - cx) * (b.x - cx) + (b.y - cy) * (b.y - cy) <= radius * radius
    ensures var b' := Explosed(b, cx, cy, radius, damage, t);
            && b'.motion.Some? && b'.motion.value.gravity == GRAVITY && b'.motion.value.t0 == t
            && Pinned(b', t) && Pinned(b', t + TICK)
            && SpeedYAt(b'.motion.value, t) < FALL_DAMAGE_SPEED && SpeedYAt(b'.motion.value, t + TICK) < FALL_DAMAGE_SPEED
  {
    var m := Explosed(b, cx, cy, radius, damage, t).motion.value;
    ThrowIsSlow(b.x - cx, b.y - cy, radius);
    ThrowIsSlow(b.y - cy, b.x - cx, radius);
    StartsAt(m);
    assert Seconds(m, t) == 0.0 && Seconds(m, t + TICK) == 0.025;
    SlowTick(m.vx, 0.0, b.x);
    SlowTick(m.vy, m.gravity as real * 0.025 * 0.025 / 2.0, b.y);
  }

  lemma ThrowIsSlow(d: int, other: int, radius: Radius)
    requires d * d + other * other <= radius * radius
    ensures -10.0 <= Quotient(BLAST_SPEED * d, radius) as real <= 10.0
  {
    LegIsShorter(d, other, radius);
    var q := Quotient(BLAST_SPEED * d, radius);
    if d >= 0 {
      QuotientAtMost(BLAST_SPEED * d, radius);
    } else {
      QuotientAtMost(-(BLAST_SPEED * d), radius);
    }
  }

  lemma QuotientAtMost(a: int, radius: int)
    requires radius > 0 && 0 <= a <= 10 * radius
    ensures 0 <= a / radius <= 10
  {
    var q := a / radius;
    assert a == radius * q + a % radius;
    assert (10 - q) * radius >= 0;
  }

  lemma SlowTick(v: real, drop: real, n: int)
    requires -10.0 <= v <= 10.0 && 0.0 <= drop <= 0.1
    ensures Round(v * 0.025 + n as real) == n && Round(drop + v * 0.025 + n as real) == n
  {
  }

  /** Terrain destroyed elsewhere, and an explosion at t, keep what a sprite satisfies. */
  lemma SurvivesBlast(g: Grid, g': Grid, b: Body, when: int, cx: int, cy: int, radius: Radius, damage: int, t: int)
    requires Erodes(g, g') && Fit(g, b, when)
    requires when == t || when == t + TICK
    ensures var b' := if IsWorm(b) then Explosed(b, cx, cy, radius, damage, t) else b;
            b'.kind == b.kind && Fit(g', b', when) && (OnAir(g, b) ==> OnAir(g', b'))
  {
    hide SpeedYAt, FALL_DAMAGE_SPEED, XAt, YAt, Falloff;
    if b.kind.Lombric? && (b.x - cx) * (b.x - cx) + (b.y - cy) * (b.y - cy) <= radius * radius {
      ThrownIsPinned(b, cx, cy, radius, damage, t);
    }
  }

  /** What the explosion of the projectile at k does to the sprite at i. */
  lemma BlastHits(w: World, k: nat, t: int, i: nat)
    requires k < |w.bodies| && w.bodies[k].kind.Projectile? && i < |w.bodies|
    ensures var b, c := w.bodies[k], w.bodies[i];
            var d := DeathAt(w.(bodies := w.bodies[k := b.(motion := None)]), k, t);
            && (i != k ==> d.bodies[i] == if IsWorm(c) then Explosed(c, b.x, b.y, b.kind.radius, b.kind.damage, t) else c)
            && d.bodies[k].kind == b.kind && Erodes(w.grid, d.grid)
  {
    hide Explosed, Crater;
  }

  lemma MissileTurn(w: World, k: nat, t: int)
    requires Inv(w, k, t) && k < |w.bodies| && w.bodies[k].kind.Projectile?
    ensures var o := StepAt(w, k, t); Progress(w, k, t, o.world, NextIndex(o, k), o.moving)
  {
    hide Fill, Crater, Blast, ExplosedAll, Explosed, Effort, Missiles, TotalEffort, Progress, Hanging;
    var b := w.bodies[k];
    MissileStep(w.grid, b, t);
    OnAirNeverHangs(w.grid, b, t);
    if Hits(w.grid, b.motion.value, t) {
      var d := DeathAt(w.(bodies := w.bodies[k := b.(motion := None)]), k, t);
      forall i | 0 <= i < |d.bodies|
        ensures d.bodies[i].kind == w.bodies[i].kind
        ensures i != k ==> Fit(d.grid, d.bodies[i], Due(k, t, i)) && (OnAir(w.grid, w.bodies[i]) ==> OnAir(d.grid, d.bodies[i]))
      {
        BlastHits(w, k, t, i);
        SurvivesBlast(w.grid, d.grid, w.bodies[i], Due(k, t, i), b.x, b.y, b.kind.radius, b.kind.damage, t);
      }
      Removed(w, k, t, d, StepAt(w, k, t).world);
    } else {
      var b' := b.(x := XAt(b.motion.value, t), y := YAt(b.motion.value, t));
      OnAirNeverHangs(w.grid, b', t + TICK);
      Advanced(w, k, t, StepAt(w, k, t).world, b');
    }
  }

  lemma StepProgress(w: World, k: nat, t: int)
    requires Inv(w, k, t) && k < |w.bodies|
    ensures var o := StepAt(w, k, t); Progress(w, k, t, o.world, NextIndex(o, k), o.moving)
  {
    match w.bodies[k].kind
    case Lombric(_) => WormTurn(w, k, t);
    case Projectile(_, _) => MissileTurn(w, k, t);
    case Box(_) => BoxTurn(w, k, t);
  }

  // ---------------------------------------------------------------- a pass, and the whole update

  lemma {:induction false} PassProgress(w: World, k: nat, t: int, moving: bool)
    requires Inv(w, k, t) && k <= |w.bodies|
    ensures var (w', moving') := PassFrom(w, k, t, moving);
            && Inv(w', 0, t + TICK)
            && (Below(MeasureOf(w', 0, t + TICK), MeasureOf(w, k, t)) || MeasureOf(w', 0, t + TICK) == MeasureOf(w, k, t))
            && (Calm(w, k, t) ==>
                  && Calm(w', 0, t + TICK)
                  && (moving' ==> moving || Below(MeasureOf(w', 0, t + TICK), MeasureOf(w, k, t))))
    decreases |w.bodies| - k
  {
    hide StepAt, Fit, Hanging, OnAir, Effort, Missiles, TotalEffort;
    if k == |w.bodies| {
      TotalEffortNextPass(w.grid, w.bodies, t);
    } else {
      StepProgress(w, k, t);
      var o := StepAt(w, k, t);
      PassProgress(o.world, NextIndex(o, k), t, moving || o.moving);
    }
  }

  /** A whole pass keeps the invariant; if no worm hangs, and none can be made to, it keeps it so, and
      lowers the measure if it sees movement. */
  lemma WholePass(w: World, t: int)
    requires Inv(w, 0, t)
    ensures var (w', moving) := Pass(w, t);
            && Inv(w', 0, t + TICK)
            && (Calm(w, 0, t) ==>
                  && Calm(w', 0, t + TICK)
                  && (moving ==> Below(MeasureOf(w', 0, t + TICK), MeasureOf(w, 0, t))))
  {
    hide Calm, Inv, PassFrom, MeasureOf, Below;
    PassProgress(w, 0, t, false);
  }

  /** Then update returns. */
  lemma {:induction false} CalmSettles(w: World, t: int)
    requires Inv(w, 0, t) && Calm(w, 0, t)
    ensures Settles(w, t)
    decreases Missiles(w.bodies), |w.bodies|, TotalEffort(w.grid, w.bodies, 0, t)
  {
    hide Calm, Inv, Pass, Missiles, TotalEffort, Settles;
    WholePass(w, t);
    SettlesStep(w, t);
    if Pass(w, t).1 {
      CalmSettles(Pass(w, t).0, t + TICK);
    }
  }

  /** The invariant holds when update returns. */
  lemma {:induction false} SettleKeepsInv(w: World, t: int)
    requires Inv(w, 0, t) && Settles(w, t)
    ensures Inv(Settle(w, t), 0, t + 25 * (Passes(w, t) + 1))
    decreases Passes(w, t)
  {
    hide Calm, Inv, Pass, MeasureOf, Settles;
    WholePass(w, t);
    SettlesStep(w, t);
    if Pass(w, t).1 {
      SettleKeepsInv(Pass(w, t).0, t + TICK);
    }
  }
}
