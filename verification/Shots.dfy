/** Exactly which shots and walks come to rest: where a missile hits (sharedFiles/src/projectile.cpp), and
    what its explosion uncovers below worms in walls. */
module Shots {
  import opened Options
  import opened Physics
  import opened Terrain
  import opened Arena
  import opened Settling
  import opened Quiescence
  import opened Trapped
  import opened Turns

  // ---------------------------------------------------------------- the impact

  predicate InFlight(m: Body, t: int) {
    && m.kind.Projectile? && m.id == 0 && m.motion.Some?
    && m.motion.value.gravity > 0 && OnTick(m.motion.value, t)
  }

  function Moved(m: Body, t: int): Body
    requires m.motion.Some?
  {
    m.(x := XAt(m.motion.value, t), y := YAt(m.motion.value, t))
  }

  /** The missile where it explodes, in its last cell, if it is updated next at t: the flight depends on
      the map and the launch alone. */
  function AtImpact(g: Grid, m: Body, t: int): (r: Body)
    requires InFlight(m, t)
    ensures r.kind == m.kind
    decreases Left(g, m.motion.value, t)
  {
    if Hits(g, m.motion.value, t) then m
    else
      FlightShortens(g, m.motion.value, t);
      AtImpact(g, Moved(m, t), t + TICK)
  }

  /** The impact: tick n is the first at which the missile's cell is not AIR, and it explodes in its cell of
      the tick before, or in the one it starts in. */
  lemma {:induction false} ImpactMeaning(g: Grid, m: Body, t: int) returns (n: nat)
    requires InFlight(m, t)
    ensures Hits(g, m.motion.value, t + 25 * n) && forall k: nat :: k < n ==> !Hits(g, m.motion.value, t + 25 * k)
    ensures AtImpact(g, m, t) == if n == 0 then m else Moved(m, t + 25 * (n - 1))
    decreases Left(g, m.motion.value, t)
  {
    hide Hits, Left, XAt, YAt;
    if Hits(g, m.motion.value, t) {
      n := 0;
    } else {
      FlightShortens(g, m.motion.value, t);
      n := ImpactMeaning(g, Moved(m, t), t + TICK);
      forall k: nat | k < n + 1
        ensures !Hits(g, m.motion.value, t + 25 * k)
      {
        if k > 0 {
          assert t + 25 * k == (t + TICK) + 25 * (k - 1);
        }
      }
      n := n + 1;
    }
  }

  /** A missile shot to the right explodes in its launch column or right of it, one shot to the left in its
      launch column or left of it; and it explodes on AIR unless it starts inside something else. */
  lemma ImpactIsAhead(g: Grid, m: Body, t: int)
    requires InFlight(m, t) && m.motion.value.t0 == t && m.x == m.motion.value.x0 && m.y == m.motion.value.y0
    ensures m.motion.value.vx >= 0.0 ==> AtImpact(g, m, t).x >= m.x
    ensures m.motion.value.vx <= 0.0 ==> AtImpact(g, m, t).x <= m.x
    ensures AtImpact(g, m, t) == m || OnAir(g, AtImpact(g, m, t))
  {
    hide XAt, YAt, Left;
    var n := ImpactMeaning(g, m, t);
    if n > 0 {
      NeverBack(m.motion.value, t + 25 * (n - 1));
    }
  }

  /** The terrain after the explosion. */
  function Cratered(g: Grid, m: Body): Grid
    requires m.kind.Projectile?
  {
    Fill(g, Crater(g, m.x, m.y, m.kind.radius), AIR)
  }

  function Blasted(b: Body, m: Body, t: int): Body
    requires m.kind.Projectile?
  {
    if IsWorm(b) then Explosed(b, m.x, m.y, m.kind.radius, m.kind.damage, t) else b
  }

  /** After the explosion of m, a worm that lives and is above the kill row is still in a wall, with AIR just
      below it. */
  predicate Stranded(g: Grid, b: Body, m: Body)
    requires m.kind.Projectile?
  {
    && b.kind.Lombric? && !Drowned(g, b.y) && b.life > 0 && Blasted(b, m, 0).life > 0
    && !OnAir(Cratered(g, m), b) && Is(Cratered(g, m), b.x, b.y + 1, AIR)
  }

  // ---------------------------------------------------------------- a pass with a missile at the end

  function With(w: World, m: Body): World {
    w.(bodies := w.bodies + [m])
  }

  lemma {:induction false} FirstWormWith(bodies: seq<Body>, m: Body, x: int, y: int)
    requires !IsWorm(m)
    ensures var j := FirstWormAt(bodies, x, y);
            FirstWormAt(bodies + [m], x, y) == if j < |bodies| then j else |bodies| + 1
  {
    if bodies == [] {
      assert bodies + [m] == [m];
      assert FirstWormAt([], x, y) == 0;
    } else {
      assert (bodies + [m])[1..] == bodies[1..] + [m];
      FirstWormWith(bodies[1..], m, x, y);
    }
  }

  lemma UpdateWith(w: World, m: Body, k: nat, t: int)
    requires k < |w.bodies| && !w.bodies[k].kind.Projectile? && m.kind.Projectile?
    ensures var (u, alive) := UpdateAt(w, k, t);
            UpdateAt(With(w, m), k, t) == (With(u, m), alive) && u.bodies[k].kind == w.bodies[k].kind
  {
    hide BoxLost, Hits, FirstWormAt;
    var b := w.bodies[k];
    if b.kind.Lombric? {
      var b' := WormUpdate(w.grid, b, t);
      assert (w.bodies + [m])[k := b'] == w.bodies[k := b'] + [m];
    } else {
      var b' := BoxMove(w.grid, b, t);
      var bodies := w.bodies[k := b'];
      assert (w.bodies + [m])[k := b'] == bodies + [m];
      FirstWormWith(bodies, m, b'.x, b'.y);
      var j := FirstWormAt(bodies, b'.x, b'.y);
      if j < |bodies| {
        assert (bodies + [m])[j := AddLife(bodies[j], b.kind.health)] == bodies[j := AddLife(bodies[j], b.kind.health)] + [m];
      }
    }
  }

  /** The missile takes no part in the updates of the others. */
  lemma StepWith(w: World, m: Body, k: nat, t: int)
    requires k < |w.bodies| && !w.bodies[k].kind.Projectile? && m.kind.Projectile?
    ensures var o := StepAt(w, k, t);
            StepAt(With(w, m), k, t) == o.(world := With(o.world, m))
  {
    hide UpdateAt;
    UpdateWith(w, m, k, t);
    var bodies := UpdateAt(w, k, t).0.bodies;
    assert Erase(bodies + [m], k) == Erase(bodies, k) + [m];
  }

  lemma {:induction false} PassWith(w: World, m: Body, k: nat, t: int, moving: bool)
    requires k <= |w.bodies| && NoProjectile(w.bodies) && m.kind.Projectile?
    ensures var (w', moving') := PassFrom(w, k, t, moving);
            PassFrom(With(w, m), k, t, moving) == PassFrom(With(w', m), |w'.bodies|, t, moving')
    decreases |w.bodies| - k
  {
    hide StepAt, Reported, OnAir;
    if k < |w.bodies| {
      StepWith(w, m, k, t);
      StepEvolves(w, k, t);
      var o := StepAt(w, k, t);
      PassWith(o.world, m, NextIndex(o, k), t, moving || o.moving);
    }
  }

  /** The world after the explosion of the missile at t, with the missile gone. */
  function Exploded(w: World, m: Body, t: int): World
    requires m.kind.Projectile?
  {
    w.(grid := Cratered(w.grid, m),
       bodies := ExplosedAll(w.bodies, m.x, m.y, m.kind.radius, m.kind.damage, t),
       deleted := w.deleted + Blast(w.grid, m.x, m.y, m.kind.radius))
  }

  /** The missile's own turn, which is the last of the pass. */
  lemma LastTurn(w: World, m: Body, t: int, moving: bool)
    requires InFlight(m, t)
    ensures PassFrom(With(w, m), |w.bodies|, t, moving) ==
            (if Hits(w.grid, m.motion.value, t) then Exploded(w, m, t) else With(w, Moved(m, t)), true)
  {
    hide Hits, Fill, Crater, Blast, Explosed;
    var s, k := With(w, m), |w.bodies|;
    if Hits(w.grid, m.motion.value, t) {
      var v := s.(bodies := s.bodies[k := m.(motion := None)]);
      assert UpdateAt(s, k, t) == (v, false);
      var d := DeathAt(v, k, t);
      assert Erase(d.bodies, k) == ExplosedAll(w.bodies, m.x, m.y, m.kind.radius, m.kind.damage, t);
      assert StepAt(s, k, t) == Outcome(Exploded(w, m, t), false, true);
    } else {
      assert s.bodies[k := Moved(m, t)] == w.bodies + [Moved(m, t)];
      assert StepAt(s, k, t) == Outcome(With(w, Moved(m, t)), true, true);
    }
  }

  // ---------------------------------------------------------------- worms in walls during the flight

  predicate Walled(g: Grid, b: Body) {
    b.kind.Lombric? && !OnAir(g, b) && !Drowned(g, b.y) && b.life > 0
  }

  /** The worms in walls that live, apart from their movement. */
  function WalledWorms(w: World): (r: set<Body>)
    ensures forall v :: v in r <==> exists i :: 0 <= i < |w.bodies| && Walled(w.grid, w.bodies[i]) && v == w.bodies[i].(motion := None)
  {
    set i | 0 <= i < |w.bodies| && Walled(w.grid, w.bodies[i]) :: w.bodies[i].(motion := None)
  }

  /** The end of a movement does not hurt a worm in a wall; and such a worm lives if it has had its turn. */
  predicate Unhurt(w: World, k: nat, t: int) {
    forall i :: 0 <= i < |w.bodies| && w.bodies[i].kind.Lombric? && !OnAir(w.grid, w.bodies[i]) ==>
      Struck(w.bodies[i], Due(k, t, i)) == w.bodies[i].life && (i < k ==> Walled(w.grid, w.bodies[i]))
  }

  /** The sprite at i after an iteration for a worm or a box is one that was there before, if it is in a wall. */
  lemma OthersWere(w: World, k: nat, t: int, i: nat)
    requires Inv(w, k, t) && k < |w.bodies| && !w.bodies[k].kind.Projectile?
    requires var o := StepAt(w, k, t);
             i < |o.world.bodies| && !OnAir(w.grid, o.world.bodies[i]) && !(o.alive && i == k)
    ensures var o := StepAt(w, k, t);
            var j := if o.alive || i < k then i else i + 1;
            o.world.grid == w.grid && j < |w.bodies| && j != k && w.bodies[j] == o.world.bodies[i]
  {
    hide UpdateAt, Fit, OnAir;
    UpdateWere(w, k, t);
    OutcomeIs(w, k, t);
    ErasedAt(UpdateAt(w, k, t).0.bodies, k);
  }

  lemma UpdateWere(w: World, k: nat, t: int)
    requires Inv(w, k, t) && k < |w.bodies| && !w.bodies[k].kind.Projectile?
    ensures var (u, _) := UpdateAt(w, k, t);
            && u.grid == w.grid && u.bodies[k].kind == w.bodies[k].kind
            && forall j :: 0 <= j < |w.bodies| && j != k ==> u.bodies[j] == w.bodies[j] || OnAir(w.grid, u.bodies[j])
  {
    hide BoxMove, BoxLost, Effort, Synced;
    if w.bodies[k].kind.Box? {
      BoxStep(w.grid, w.bodies[k], t);
    }
  }

  lemma WormTurnInWall(w: World, k: nat, t: int)
    requires Inv(w, k, t) && k < |w.bodies| && w.bodies[k].kind.Lombric? && Unhurt(w, k, t)
    ensures var o := StepAt(w, k, t);
            && (Walled(w.grid, w.bodies[k]) ==>
                  o.alive && Walled(w.grid, o.world.bodies[k]) && o.world.bodies[k].(motion := None) == w.bodies[k].(motion := None))
            && (o.alive && !OnAir(w.grid, o.world.bodies[k]) ==>
                  && Walled(w.grid, w.bodies[k]) && Walled(w.grid, o.world.bodies[k])
                  && Struck(o.world.bodies[k], t + TICK) == o.world.bodies[k].life
                  && o.world.bodies[k].(motion := None) == w.bodies[k].(motion := None))
  {
    hide WormUpdate, SpeedYAt, Effort;
    WormStep(w.grid, w.bodies[k], t);
    if !OnAir(w.grid, w.bodies[k]) {
      WalledStep(w.grid, w.bodies[k], t);
    }
  }

  lemma StepWalled(w: World, k: nat, t: int)
    requires Inv(w, k, t) && NoProjectile(w.bodies) && k < |w.bodies| && Unhurt(w, k, t)
    ensures var o := StepAt(w, k, t);
            Unhurt(o.world, NextIndex(o, k), t) && WalledWorms(o.world) == WalledWorms(w)
  {
    hide UpdateAt, DeathAt, StepAt, Fit, OnAir, Struck, Drowned;
    var o := StepAt(w, k, t);
    SameTerrain(w, k, t);
    if w.bodies[k].kind.Lombric? {
      WormTurnInWall(w, k, t);
    } else {
      BoxIsNoWorm(w, k, t);
    }
    forall i: nat | i < |o.world.bodies| && o.world.bodies[i].kind.Lombric? && !OnAir(w.grid, o.world.bodies[i])
      ensures Struck(o.world.bodies[i], Due(NextIndex(o, k), t, i)) == o.world.bodies[i].life
      ensures i < NextIndex(o, k) ==> Walled(w.grid, o.world.bodies[i])
      ensures Walled(w.grid, o.world.bodies[i]) ==> o.world.bodies[i].(motion := None) in WalledWorms(w)
    {
      if !(o.alive && i == k) {
        OthersWere(w, k, t, i);
      }
    }
    forall i: nat | i < |w.bodies| && Walled(w.grid, w.bodies[i])
      ensures w.bodies[i].(motion := None) in WalledWorms(o.world)
    {
      if i != k {
        OthersStay(w, k, t, i);
      }
    }
  }

  lemma SameTerrain(w: World, k: nat, t: int)
    requires NoProjectile(w.bodies) && k < |w.bodies|
    ensures StepAt(w, k, t).world.grid == w.grid
  {
    hide StepAt, Reported;
    StepEvolves(w, k, t);
  }

  lemma BoxIsNoWorm(w: World, k: nat, t: int)
    requires k < |w.bodies| && w.bodies[k].kind.Box?
    ensures var o := StepAt(w, k, t); o.alive ==> o.world.bodies[k].kind.Box?
  {
  }

  lemma {:induction false} PassWalled(w: World, k: nat, t: int, moving: bool)
    requires Inv(w, k, t) && NoProjectile(w.bodies) && k <= |w.bodies| && Unhurt(w, k, t)
    ensures var (w', _) := PassFrom(w, k, t, moving);
            && Inv(w', 0, t + TICK) && NoProjectile(w'.bodies) && w'.grid == w.grid && w'.deleted == w.deleted
            && Unhurt(w', |w'.bodies|, t) && WalledWorms(w') == WalledWorms(w)
    decreases |w.bodies| - k
  {
    hide StepAt, Fit, OnAir, Walled, WalledWorms, Struck, Reported;
    if k < |w.bodies| {
      var o := StepAt(w, k, t);
      StepProgress(w, k, t);
      StepEvolves(w, k, t);
      StepWalled(w, k, t);
      PassWalled(o.world, NextIndex(o, k), t, moving || o.moving);
    }
  }

  lemma NextUnhurt(w: World, t: int)
    requires Unhurt(w, |w.bodies|, t)
    ensures Unhurt(w, 0, t + TICK)
  {
  }

  // ---------------------------------------------------------------- the flight

  /** A flight ends with an explosion in the impact cell, among the worms in walls of the beginning. */
  lemma {:induction false} FlightEnds(w: World, m: Body, t: int) returns (w': World, when: int)
    requires Inv(With(w, m), 0, t) && NoProjectile(w.bodies) && InFlight(m, t) && Unhurt(w, 0, t)
    ensures w'.grid == w.grid && w'.deleted == w.deleted && NoProjectile(w'.bodies)
    ensures Unhurt(w', |w'.bodies|, when) && WalledWorms(w') == WalledWorms(w)
    ensures var e := Exploded(w', AtImpact(w.grid, m, t), when);
            && Inv(e, 0, when + TICK) && (Settles(With(w, m), t) <==> Settles(e, when + TICK))
            && (Settles(e, when + TICK) ==> Settle(With(w, m), t) == Settle(e, when + TICK))
    decreases Left(w.grid, m.motion.value, t)
  {
    hide Hits, Left, OnTick, PassFrom, Fit, Walled, WalledWorms, Struck, Settles, Settle, OnAir, NoProjectile, Exploded, Unhurt;
    WithoutFits(w, m, t);
    PassWith(w, m, 0, t, false);
    PassWalled(w, 0, t, false);
    var (w1, moving) := Pass(w, t);
    LastTurn(w1, m, t, moving);
    SettlesStep(With(w, m), t);
    WholePass(With(w, m), t);
    if Hits(w.grid, m.motion.value, t) {
      w', when := w1, t;
    } else {
      FlightShortens(w.grid, m.motion.value, t);
      NextUnhurt(w1, t);
      w', when := FlightEnds(w1, Moved(m, t), t + TICK);
    }
  }

  lemma WithoutFits(w: World, m: Body, t: int)
    requires Inv(With(w, m), 0, t)
    ensures Inv(w, 0, t)
  {
    hide Fit;
    forall i | 0 <= i < |w.bodies|
      ensures Fit(w.grid, w.bodies[i], Due(0, t, i))
    {
      assert With(w, m).bodies[i] == w.bodies[i];
    }
  }

  /** Which worms hang after the explosion. */
  lemma HangingIsStranded(w: World, m: Body, t: int, i: nat)
    requires m.kind.Projectile? && i < |w.bodies| && Unhurt(w, |w.bodies|, t)
    requires Inv(Exploded(w, m, t), 0, t + TICK)
    ensures Hanging(Cratered(w.grid, m), Exploded(w, m, t).bodies[i], t + TICK)
       <==> Walled(w.grid, w.bodies[i]) && Stranded(w.grid, w.bodies[i].(motion := None), m)
  {
    hide Fill, Crater, Falloff, Quotient, XAt, YAt, SpeedYAt, Impact, Blast;
    var b := w.bodies[i];
    var e := Exploded(w, m, t);
    assert e.bodies[i] == Blasted(b, m, t);
    assert Fit(e.grid, e.bodies[i], Due(0, t + TICK, i));
    CraterErodes(w.grid, m, b);
    if b.kind.Lombric? {
      if IsWorm(b) && (b.x - m.x) * (b.x - m.x) + (b.y - m.y) * (b.y - m.y) <= m.kind.radius * m.kind.radius {
        ThrownIsPinned(b, m.x, m.y, m.kind.radius, m.kind.damage, t);
        SlowDoesNotHurt(e.bodies[i], t + TICK);
      }
    }
  }

  lemma SlowDoesNotHurt(b: Body, t: int)
    requires b.motion.Some? && SpeedYAt(b.motion.value, t) < FALL_DAMAGE_SPEED
    ensures Struck(b, t) == b.life
  {
  }

  lemma CraterErodes(g: Grid, m: Body, b: Body)
    requires m.kind.Projectile?
    ensures OnAir(g, b) ==> OnAir(Cratered(g, m), b)
    ensures forall y :: Drowned(Cratered(g, m), y) <==> Drowned(g, y)
  {
    hide Crater;
  }

  /** From a state at rest, with worms anywhere, and one missile in flight, update returns if and only if the
      explosion in the impact cell strands no worm. */
  lemma MissileReturnsIff(w: World, m: Body, t: int)
    requires AtRest(w) && InFlight(m, t) && Synced(m, t)
    ensures Settles(With(w, m), t) <==>
            forall i :: 0 <= i < |w.bodies| ==> !Stranded(w.grid, w.bodies[i], AtImpact(w.grid, m, t))
  {
    hide *;
    RestUnhurt(w, m, t);
    var w', when := FlightEnds(w, m, t);
    ExplosionReturnsIff(w', AtImpact(w.grid, m, t), when);
    StrandedAreWalled(w, w', AtImpact(w.grid, m, t));
  }

  /** Just after the explosion. */
  lemma ExplosionReturnsIff(w: World, m: Body, t: int)
    requires m.kind.Projectile? && NoProjectile(w.bodies) && Unhurt(w, |w.bodies|, t)
    requires Inv(Exploded(w, m, t), 0, t + TICK)
    ensures Settles(Exploded(w, m, t), t + TICK) <==> forall i :: 0 <= i < |w.bodies| ==> !StrandedNow(w, m, i)
  {
    hide Unhurt, Settles, Exploded, Stranded, Hanging, NoProjectile, Walled, Inv;
    var e := Exploded(w, m, t);
    ExplodedKinds(w, m, t);
    UpdateReturnsIff(e, t + TICK);
    forall i: nat | i < |w.bodies|
      ensures Hanging(e.grid, e.bodies[i], Due(0, t + TICK, i)) <==> StrandedNow(w, m, i)
    {
      HangingIsStranded(w, m, t, i);
    }
  }

  predicate StrandedNow(w: World, m: Body, i: nat)
    requires m.kind.Projectile? && i < |w.bodies|
  {
    Walled(w.grid, w.bodies[i]) && Stranded(w.grid, w.bodies[i].(motion := None), m)
  }

  lemma RestUnhurt(w: World, m: Body, t: int)
    requires AtRest(w) && InFlight(m, t) && Synced(m, t)
    ensures Inv(With(w, m), 0, t) && NoProjectile(w.bodies) && Unhurt(w, 0, t) && m.kind.Projectile?
  {
  }

  lemma ExplodedKinds(w: World, m: Body, t: int)
    requires m.kind.Projectile? && NoProjectile(w.bodies)
    ensures var e := Exploded(w, m, t);
            NoProjectile(e.bodies) && |e.bodies| == |w.bodies| && e.grid == Cratered(w.grid, m)
  {
    hide Crater, Blast, Falloff, Quotient;
  }

  /** The stranded worms are among those in walls, which are the same before and after the flight. */
  lemma StrandedAreWalled(w: World, w': World, m: Body)
    requires m.kind.Projectile? && AtRest(w) && w'.grid == w.grid && WalledWorms(w') == WalledWorms(w)
    ensures (exists i :: 0 <= i < |w.bodies| && Stranded(w.grid, w.bodies[i], m)) <==>
            exists i :: 0 <= i < |w'.bodies| && StrandedNow(w', m, i)
  {
    hide Drowned, Fill, Crater;
    if exists i :: 0 <= i < |w.bodies| && Stranded(w.grid, w.bodies[i], m) {
      var i :| 0 <= i < |w.bodies| && Stranded(w.grid, w.bodies[i], m);
      CraterErodes(w.grid, m, w.bodies[i]);
      assert w.bodies[i].(motion := None) == w.bodies[i];
      assert w.bodies[i] in WalledWorms(w');
      var j :| 0 <= j < |w'.bodies| && Walled(w'.grid, w'.bodies[j]) && w.bodies[i] == w'.bodies[j].(motion := None);
      assert StrandedNow(w', m, j);
    }
    if exists i :: 0 <= i < |w'.bodies| && StrandedNow(w', m, i) {
      var i :| 0 <= i < |w'.bodies| && StrandedNow(w', m, i);
      assert w'.bodies[i].(motion := None) in WalledWorms(w);
      var j :| 0 <= j < |w.bodies| && Walled(w.grid, w.bodies[j]) && w'.bodies[i].(motion := None) == w.bodies[j].(motion := None);
      assert w.bodies[j].(motion := None) == w.bodies[j];
    }
  }

  // ---------------------------------------------------------------- what players can do

  /** The missile of a shot by the worm at index c, where it explodes. */
  function ShotImpact(w: World, c: nat, vx: real, vy: real): (m: Body)
    requires AtRest(w) && c < |w.bodies|
    ensures m.kind.Projectile?
  {
    MissileInFlight(w.bodies[c], vx, vy);
    AtImpact(w.grid, Missile(w.bodies[c], vx, vy, 0), 0)
  }

  lemma MissileInFlight(b: Body, vx: real, vy: real)
    ensures var m := Missile(b, vx, vy, 0); InFlight(m, 0) && Synced(m, 0)
  {
    StartsAt(Missile(b, vx, vy, 0).motion.value);
  }

  /** A missile that comes to rest has destroyed exactly the crater in its impact cell, and its cells are the
      ones reported. */
  lemma MissileDestroys(w: World, c: nat, vx: real, vy: real)
    requires AtRest(w) && c < |w.bodies| && Settles(Fired(w, c, LanceMissile, vx, vy), 0)
    ensures var r, m := UseWeapon(w, c, LanceMissile, vx, vy), ShotImpact(w, c, vx, vy);
            r.grid == Cratered(w.grid, m) && r.deleted == Blast(w.grid, m.x, m.y, m.kind.radius)
  {
    hide Settles, Settle, Inv, Unhurt, AtImpact, InFlight, Synced, NoProjectile, AtRest, Blast, WalledWorms, Cratered, Reported, AllOnAir;
    var clean, m := w.(deleted := []), Missile(w.bodies[c], vx, vy, 0);
    CleanAtRest(w);
    MissileInFlight(w.bodies[c], vx, vy);
    RestUnhurt(clean, m, 0);
    var w', when := FlightEnds(clean, m, 0);
    var m' := AtImpact(w.grid, m, 0);
    ExplodedKinds(w', m', when);
    var e := Exploded(w', m', when);
    SettleEvolves(e, when + TICK);
    assert [] + Blast(w.grid, m'.x, m'.y, m'.kind.radius) == Blast(w.grid, m'.x, m'.y, m'.kind.radius);
  }

  /** A shot from a playable state can be simulated to its end if and only if it is no missile that strands a
      worm. */
  lemma ShotReturnsIff(w: World, c: nat, weapon: Weapon, vx: real, vy: real)
    requires Playable(w) && c < |w.bodies|
    ensures Settles(Fired(w, c, weapon, vx, vy), 0) <==>
            (weapon.LanceMissile? ==> forall i :: 0 <= i < |w.bodies| ==> !Stranded(w.grid, w.bodies[i], ShotImpact(w, c, vx, vy)))
  {
    hide Settles, Inv, Stranded, NoneHangs, AtImpact, InFlight, Synced, BattedAll;
    var clean := w.(deleted := []);
    CleanAtRest(w);
    CleanHangsNone(w);
    match weapon {
      case LanceMissile =>
        MissileInFlight(w.bodies[c], vx, vy);
        MissileReturnsIff(clean, Missile(w.bodies[c], vx, vy, 0), 0);
      case BatteBaseball =>
        ShotFits(clean, c, weapon, vx, vy);
        BatHangsNone(clean, c, vx, vy);
        UpdateReturnsIff(Fired(w, c, weapon, vx, vy), 0);
      case PassTour =>
        AtRestFits(clean, 0);
        UpdateReturnsIff(clean, 0);
    }
  }

  lemma CleanHangsNone(w: World)
    ensures NoneHangs(w.(deleted := []), 0, 0) <==> NoneHangs(w, 0, 0)
  {
    hide Hanging;
  }

  /** The bat makes no worm hang: it can hurt a worm in a wall, but not free it. */
  lemma BatHangsNone(w: World, c: nat, vx: real, vy: real)
    requires AtRest(w) && c < |w.bodies|
    ensures var s := Shoot(w, c, BatteBaseball, vx, vy);
            NoProjectile(s.bodies) && (NoneHangs(w, 0, 0) ==> NoneHangs(s, 0, 0))
  {
    hide SpeedYAt, Impact, XAt, YAt, Drowned;
    var s := Shoot(w, c, BatteBaseball, vx, vy);
    forall i | 0 <= i < |s.bodies|
      ensures Hanging(s.grid, s.bodies[i], 0) ==> Hanging(w.grid, w.bodies[i], 0)
    {
      var b := s.bodies[i];
      if b.motion.Some? {
        ImpactHurts(b.life, SpeedYAt(b.motion.value, 0));
      }
    }
  }

  /** A worm can be put on this cell: it is free, or the worm will not hang there. */
  predicate CanHold(g: Grid, x: int, y: int) {
    Is(g, x, y, AIR) || !Is(g, x, y + 1, AIR) || Drowned(g, y)
  }

  /** moveCurrentLombric does not look at the map: it returns if and only if the new cell can hold the worm. */
  lemma MoveReturnsIff(w: World, c: nat, x: int, y: int)
    requires Playable(w) && c < |w.bodies| && w.bodies[c].kind.Lombric?
    ensures Settles(MoveTo(w, c, x, y), 0) <==> CanHold(w.grid, x, y) || w.bodies[c].life <= 0
  {
    hide Settles, Drowned, Inv;
    var m := MoveTo(w, c, x, y);
    assert AtRest(m);
    AtRestFits(m, 0);
    UpdateReturnsIff(m, 0);
    assert Hanging(m.grid, m.bodies[c], 0) <==> !CanHold(w.grid, x, y) && w.bodies[c].life > 0;
    forall i | 0 <= i < |m.bodies| && i != c
      ensures !Hanging(m.grid, m.bodies[i], 0)
    {
      assert m.bodies[i] == w.bodies[i] && !Hanging(w.grid, w.bodies[i], Due(0, 0, i));
    }
  }

  // ---------------------------------------------------------------- two updates that never return

  /** Ground on the left; on the right a cell of the wall over one cell of AIR. */
  function HangingWorld(): World {
    var g: Grid := RawGrid(2, 4, [[AIR, SOLID_WALL], [SOLID_WALL, AIR], [SOLID_WALL, SOLID_WALL], [SOLID_WALL, SOLID_WALL]], 0);
    World(g, [Body(1, Lombric(150), 0, 0, None, 100)], [], false)
  }

  /** The server accepts a step to the right after which update never returns. */
  lemma HangingWorldNeverReturns()
    ensures var w := HangingWorld();
            Playable(w) && CanMove(w, 1, 1, 0) && !Settles(MoveTo(w, 0, 1, 0), 0)
  {
    var w := HangingWorld();
    assert FindById(w.bodies, 1) == 0;
    MoveReturnsIff(w, 0, 1, 0);
  }

  /** Walls that cannot be destroyed, with one block that can in the right column. */
  function StrandedGrid(): Grid {
    RawGrid(2, 6, [[AIR, AIR], [AIR, SOLID_WALL], [SOLID_WALL, LIGHT_WALL],
                   [SOLID_WALL, SOLID_WALL], [SOLID_WALL, SOLID_WALL], [SOLID_WALL, SOLID_WALL]], 0)
  }

  function StrandedWorld(x: int): World {
    World(StrandedGrid(), [Body(1, Lombric(150), x, 1, None, 100)], [], false)
  }

  /** A worm walks into a wall and comes to rest there; it shoots straight down, its own explosion opens the
      cell below it, and update never returns. */
  lemma StrandedWorldNeverReturns()
    ensures var w, walled := StrandedWorld(0), StrandedWorld(1);
            && Playable(w) && CanMove(w, 1, 1, 1) && Settles(MoveTo(w, 0, 1, 1), 0) && Settle(MoveTo(w, 0, 1, 1), 0) == walled
            && Playable(walled) && !Settles(Fired(walled, 0, LanceMissile, 0.0, 25.0), 0)
  {
    hide Settles, Settle, Stranded, Hits, AtImpact, Pass;
    var w, walled := StrandedWorld(0), StrandedWorld(1);
    assert FindById(w.bodies, 1) == 0;
    assert MoveTo(w, 0, 1, 1) == walled;
    StaysInWall();
    SettlesStep(walled, 0);
    ShootsDown();
    OpensBelow();
    assert ShotImpact(walled, 0, 0.0, 25.0) == Missile(walled.bodies[0], 0.0, 25.0, 0);
    ShotReturnsIff(walled, 0, LanceMissile, 0.0, 25.0);
  }

  lemma StaysInWall()
    ensures Pass(StrandedWorld(1), 0) == (StrandedWorld(1), false)
  {
    var w := StrandedWorld(1);
    var b := w.bodies[0];
    assert WormUpdate(w.grid, b, 0) == b;
    assert w.bodies[0 := b] == w.bodies;
    assert UpdateAt(w, 0, 0) == (w, true);
    assert StepAt(w, 0, 0) == Outcome(w, true, false);
    assert PassFrom(w, 1, 0, false) == (w, false);
  }

  lemma OpensBelow()
    ensures var b := StrandedWorld(1).bodies[0]; Stranded(StrandedGrid(), b, Missile(b, 0.0, 25.0, 0))
  {
    hide Falloff, Crater;
    LossIsBounded(25, 4, 1);
    InCrater(StrandedGrid(), 1, 0, 4, 1, 2);
  }

  lemma LossIsBounded(amount: int, radius: int, dist2: nat)
    requires amount > 0
    ensures Falloff(-amount, radius, dist2) >= -amount
  {
  }

  lemma ShootsDown()
    ensures var m := Missile(StrandedWorld(1).bodies[0], 0.0, 25.0, 0);
            InFlight(m, 0) && AtImpact(StrandedGrid(), m, 0) == m
  {
    var m := Missile(StrandedWorld(1).bodies[0], 0.0, 25.0, 0);
    StartsAt(m.motion.value);
    assert Seconds(m.motion.value, 25) == 0.025;
    assert Moved(m, 0) == m;
    assert AtImpact(StrandedGrid(), m, 25) == m;
  }

  lemma InCrater(g: Grid, cx: int, cy: int, radius: int, x: int, y: int)
    requires radius >= 0 && InDisc(cx, cy, radius, (x, y)) && 0 <= x < g.width && 0 <= y < g.height
    ensures forall x', y' :: 0 <= x' < g.width && 0 <= y' < g.height && g.cells[y'][x'] != LIGHT_WALL ==> (x', y') !in Crater(g, cx, cy, radius)
    ensures g.cells[y][x] == LIGHT_WALL ==> (x, y) in Crater(g, cx, cy, radius)
  {
  }
}
