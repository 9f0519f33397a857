/** What holds when Partie::update (Server/src/partie_serv.cpp) returns, and what a whole update
    does to the terrain, to the reported coordinates and to the set of sprites. */
module Quiescence {
  import opened Options
  import opened Physics
  import opened Terrain
  import opened Arena
  import opened Settling

  predicate NoWormAt(bodies: seq<Body>, x: int, y: int) {
    forall i :: 0 <= i < |bodies| && IsWorm(bodies[i]) ==> !(bodies[i].x == x && bodies[i].y == y)
  }

  /** A sprite that the next update would leave as it is. */
  predicate Resting(g: Grid, bodies: seq<Body>, b: Body) {
    && b.motion.None?
    && !Is(g, b.x, b.y + 1, AIR)
    && match b.kind
       case Lombric(maxLife) => 0 < b.life <= maxLife && !Drowned(g, b.y)
       case Projectile(_, _) => false
       case Box(_) => NoWormAt(bodies, b.x, b.y)
  }

  predicate Quiescent(w: World) {
    forall i :: 0 <= i < |w.bodies| ==> Resting(w.grid, w.bodies, w.bodies[i])
  }

  /** Sprites that differ at most in life and movement. */
  predicate SamePlace(a: Body, b: Body) {
    a.id == b.id && a.kind == b.kind && a.x == b.x && a.y == b.y
  }

  predicate SamePlaces(a: seq<Body>, b: seq<Body>) {
    |a| == |b| && forall i :: 0 <= i < |a| ==> SamePlace(a[i], b[i])
  }

  predicate SoundBody(b: Body) {
    match b.kind
    case Lombric(maxLife) => b.life <= maxLife
    case Projectile(_, _) => b.motion.Some?
    case Box(_) => true
  }

  /** No worm has more than its maximum of life, and every projectile is in flight. Nothing is asked about
      where the sprites are or how they move. */
  predicate Sound(bodies: seq<Body>) {
    forall i :: 0 <= i < |bodies| ==> SoundBody(bodies[i])
  }

  lemma InvIsSound(w: World, k: nat, t: int)
    requires Inv(w, k, t)
    ensures Sound(w.bodies)
  {
  }

  lemma QuietStep(w: World, k: nat, t: int)
    requires Sound(w.bodies) && k < |w.bodies| && !StepAt(w, k, t).moving
    ensures var o := StepAt(w, k, t);
            && o.alive && o.world.grid == w.grid
            && SamePlaces(o.world.bodies, w.bodies)
            && (forall i :: 0 <= i < |w.bodies| && i != k ==> o.world.bodies[i] == w.bodies[i])
            && Resting(w.grid, o.world.bodies, o.world.bodies[k])
            && Sound(o.world.bodies)
  {
  }

  lemma {:induction false} QuietPass(w: World, k: nat, t: int, moving: bool)
    requires Sound(w.bodies) && k <= |w.bodies| && !PassFrom(w, k, t, moving).1
    ensures var w' := PassFrom(w, k, t, moving).0;
            && w'.grid == w.grid
            && SamePlaces(w'.bodies, w.bodies)
            && (forall i :: 0 <= i < k ==> w'.bodies[i] == w.bodies[i])
            && (forall i :: k <= i < |w.bodies| ==> Resting(w.grid, w'.bodies, w'.bodies[i]))
    decreases |w.bodies| - k
  {
    hide StepAt, Sound;
    if k < |w.bodies| {
      var o := StepAt(w, k, t);
      StillMoving(o.world, NextIndex(o, k), t, moving || o.moving);
      QuietStep(w, k, t);
      QuietPass(o.world, k + 1, t, moving || o.moving);
      var w' := PassFrom(w, k, t, moving).0;
      assert forall x, y :: NoWormAt(o.world.bodies, x, y) ==> NoWormAt(w'.bodies, x, y);
    }
  }

  /** Movement seen early in a pass is reported at its end. */
  lemma {:induction false} StillMoving(w: World, k: nat, t: int, moving: bool)
    requires k <= |w.bodies|
    ensures moving ==> PassFrom(w, k, t, moving).1
    decreases |w.bodies| - k
  {
    hide StepAt;
    if k < |w.bodies| {
      var o := StepAt(w, k, t);
      StillMoving(o.world, NextIndex(o, k), t, moving || o.moving);
    }
  }

  lemma StepIsSound(w: World, k: nat, t: int)
    requires Sound(w.bodies) && k < |w.bodies|
    ensures Sound(StepAt(w, k, t).world.bodies)
  {
    hide UpdateAt, DeathAt, SoundBody;
    UpdateIsSound(w, k, t);
    var (u, alive) := UpdateAt(w, k, t);
    if !alive {
      var v := u.(turnOver := u.turnOver || (w.bodies[k].id != 0 && u.bodies[k].life != w.bodies[k].life));
      DeathIsSound(v, k, t);
      var d := DeathAt(v, k, t).bodies;
      assert forall i :: 0 <= i < |d| - 1 ==> Erase(d, k)[i] == d[if i < k then i else i + 1];
    }
  }

  lemma UpdateIsSound(w: World, k: nat, t: int)
    requires Sound(w.bodies) && k < |w.bodies|
    ensures var (u, alive) := UpdateAt(w, k, t);
            forall i :: 0 <= i < |w.bodies| && (i != k || alive) ==> SoundBody(u.bodies[i])
  {
  }

  lemma DeathIsSound(u: World, k: nat, t: int)
    requires k < |u.bodies| && forall i :: 0 <= i < |u.bodies| && i != k ==> SoundBody(u.bodies[i])
    ensures forall i :: 0 <= i < |u.bodies| && i != k ==> SoundBody(DeathAt(u, k, t).bodies[i])
  {
    hide Crater, Blast, Fill, Falloff, Quotient;
  }

  lemma {:induction false} PassIsSound(w: World, k: nat, t: int, moving: bool)
    requires Sound(w.bodies) && k <= |w.bodies|
    ensures Sound(PassFrom(w, k, t, moving).0.bodies)
    decreases |w.bodies| - k
  {
    hide StepAt, Sound;
    if k < |w.bodies| {
      var o := StepAt(w, k, t);
      StepIsSound(w, k, t);
      PassIsSound(o.world, NextIndex(o, k), t, moving || o.moving);
    }
  }

  /** When update returns, wherever worms and missiles were when it began, no projectile is left, nothing
      moves, every worm left is alive with at most its maximum of life, has no AIR below it and is above
      the kill row, and no health box shares a cell with a worm. */
  lemma {:induction false} ReturnsAtRest(w: World, t: int, n: nat)
    requires Sound(w.bodies) && Returns(w, t, n)
    ensures Quiescent(After(w, t, n + 1))
    decreases n
  {
    hide PassFrom, Sound, Resting;
    var (w', moving) := Pass(w, t);
    if moving {
      PassIsSound(w, 0, t, false);
      ReturnsAtRest(w', t + TICK, n - 1);
    } else {
      QuietPass(w, 0, t, false);
      assert After(w', t + TICK, 0) == w';
    }
  }

  lemma SettleIsQuiescent(w: World, t: int)
    requires Sound(w.bodies) && Settles(w, t)
    ensures Quiescent(Settle(w, t))
  {
    hide *;
    ReturnsAtRest(w, t, Passes(w, t));
    SettleIsAfter(w, t);
  }

  lemma SettleIsAfter(w: World, t: int)
    requires Settles(w, t)
    ensures Settle(w, t) == After(w, t, Passes(w, t) + 1)
  {
    hide After, Settles;
  }

  /** On a map whose water has not reached the top, Drowned means: above the map, or in or just over the water. */
  lemma DrownedMeaning(g: Grid, y: int)
    requires g.water < g.height && -0x8000_0000 <= y < 0x8000_0000
    ensures Drowned(g, y) <==> y < 0 || y >= g.height - g.water - 1
  {
  }

  // ---------------------------------------------------------------- what an update changes

  function Ids(bodies: seq<Body>): multiset<nat> {
    if bodies == [] then multiset{} else multiset{bodies[0].id} + Ids(bodies[1..])
  }

  lemma {:induction false} IdsSame(a: seq<Body>, b: seq<Body>)
    requires |a| == |b| && forall i :: 0 <= i < |a| ==> a[i].id == b[i].id
    ensures Ids(a) == Ids(b)
  {
    if a != [] {
      IdsSame(a[1..], b[1..]);
    }
  }

  lemma {:induction false} IdsErased(bodies: seq<Body>, k: nat)
    requires k < |bodies|
    ensures Ids(bodies) == Ids(Erase(bodies, k)) + multiset{bodies[k].id}
  {
    if k == 0 {
      assert Erase(bodies, k) == bodies[1..];
    } else {
      assert Erase(bodies, k)[1..] == Erase(bodies[1..], k - 1);
      IdsErased(bodies[1..], k - 1);
    }
  }

  /** The terrain lost between two states is exactly what was reported between them. */
  ghost predicate Reported(a: World, b: World) {
    && |a.deleted| <= |b.deleted|
    && b.deleted[..|a.deleted|] == a.deleted
    && (|b.deleted| - |a.deleted|) % 2 == 0
    && b.grid == Fill(a.grid, Cells(b.deleted[|a.deleted|..]), AIR)
  }

  /** Sprites only disappear, and without a projectile the terrain does not change. */
  ghost predicate Evolves(a: World, b: World) {
    && Reported(a, b)
    && Ids(b.bodies) <= Ids(a.bodies)
    && (AllOnAir(a.grid, a.bodies) ==> AllOnAir(b.grid, b.bodies))
    && (NoProjectile(a.bodies) ==> NoProjectile(b.bodies) && b.grid == a.grid && b.deleted == a.deleted)
  }

  lemma NothingReported(a: World, b: World)
    requires b.grid == a.grid && b.deleted == a.deleted
    ensures Reported(a, b)
  {
    assert b.deleted[|a.deleted|..] == [];
    SameGrid(a.grid, Fill(a.grid, {}, AIR));
  }

  lemma ReportedTransitive(a: World, b: World, c: World)
    requires Reported(a, b) && Reported(b, c)
    ensures Reported(a, c)
  {
    var first, second := b.deleted[|a.deleted|..], c.deleted[|b.deleted|..];
    assert c.deleted[|a.deleted|..] == first + second;
    assert c.deleted[..|a.deleted|] == c.deleted[..|b.deleted|][..|a.deleted|];
    CellsConcat(first, second);
    FillFill(a.grid, Cells(first), Cells(second), AIR);
  }

  lemma EvolvesTransitive(a: World, b: World, c: World)
    requires Evolves(a, b) && Evolves(b, c)
    ensures Evolves(a, c)
  {
    ReportedTransitive(a, b, c);
  }

  /** An iteration that changes only the sprite at k, which stays. */
  lemma AdvancedEvolves(w: World, k: nat, b': Body, w': World)
    requires k < |w.bodies| && w'.bodies == w.bodies[k := b'] && w'.grid == w.grid && w'.deleted == w.deleted
    requires b'.id == w.bodies[k].id && b'.kind == w.bodies[k].kind
    requires OnAir(w.grid, w.bodies[k]) && !b'.kind.Projectile? ==> OnAir(w.grid, b')
    ensures Evolves(w, w')
  {
    NothingReported(w, w');
    IdsSame(w.bodies, w'.bodies);
  }

  lemma IdsRemoved(w: World, k: nat, d: World, w': World)
    requires k < |w.bodies| == |d.bodies| && w'.bodies == Erase(d.bodies, k)
    requires forall i :: 0 <= i < |w.bodies| ==> d.bodies[i].id == w.bodies[i].id
    ensures Ids(w'.bodies) <= Ids(w.bodies)
  {
    IdsSame(w.bodies, d.bodies);
    IdsErased(d.bodies, k);
  }

  /** An iteration that removes the sprite at k after changing the others and perhaps the terrain. */
  lemma RemovedEvolves(w: World, k: nat, d: World, w': World)
    requires k < |w.bodies| == |d.bodies|
    requires w'.bodies == Erase(d.bodies, k) && w'.grid == d.grid && w'.deleted == d.deleted
    requires forall i :: 0 <= i < |w.bodies| ==> d.bodies[i].id == w.bodies[i].id && d.bodies[i].kind == w.bodies[i].kind
    requires Reported(w, w')
    requires AllOnAir(w.grid, w.bodies) ==>
               forall i :: 0 <= i < |d.bodies| && i != k ==> d.bodies[i].kind.Projectile? || OnAir(d.grid, d.bodies[i])
    requires NoProjectile(w.bodies) ==> d.grid == w.grid && d.deleted == w.deleted
    ensures Evolves(w, w')
  {
    IdsRemoved(w, k, d, w');
    assert NoProjectile(w.bodies) ==> NoProjectile(w'.bodies) by {
      if NoProjectile(w.bodies) {
        ErasedNoProjectile(d.bodies, k);
      }
    }
    assert AllOnAir(w.grid, w.bodies) ==> AllOnAir(w'.grid, w'.bodies) by {
      if AllOnAir(w.grid, w.bodies) {
        ErasedOnAir(d.grid, d.bodies, k);
      }
    }
  }

  lemma ErasedOnAir(g: Grid, bodies: seq<Body>, k: nat)
    requires k < |bodies|
    requires forall i :: 0 <= i < |bodies| && i != k ==> bodies[i].kind.Projectile? || OnAir(g, bodies[i])
    ensures AllOnAir(g, Erase(bodies, k))
  {
    forall i | 0 <= i < |Erase(bodies, k)|
      ensures Erase(bodies, k)[i] == bodies[if i < k then i else i + 1]
    {
    }
  }

  lemma ErasedNoProjectile(bodies: seq<Body>, k: nat)
    requires k < |bodies| && NoProjectile(bodies)
    ensures NoProjectile(Erase(bodies, k))
  {
    forall i | 0 <= i < |Erase(bodies, k)|
      ensures Erase(bodies, k)[i] == bodies[if i < k then i else i + 1]
    {
    }
  }

  lemma BlastReported(w: World, w': World, cx: int, cy: int, radius: int)
    requires w'.grid == Fill(w.grid, Crater(w.grid, cx, cy, radius), AIR)
    requires w'.deleted == w.deleted + Blast(w.grid, cx, cy, radius)
    ensures Reported(w, w')
  {
    BlastMeaning(w.grid, cx, cy, radius);
    assert w'.deleted[|w.deleted|..] == Blast(w.grid, cx, cy, radius);
  }

  lemma WormEvolves(w: World, k: nat, t: int)
    requires k < |w.bodies| && w.bodies[k].kind.Lombric?
    ensures Evolves(w, StepAt(w, k, t).world)
  {
    hide Evolves, Reported, OnAir, WormUpdate;
    WormKept(w.grid, w.bodies[k], t);
    var b' := WormUpdate(w.grid, w.bodies[k], t);
    if b'.life != 0 {
      AdvancedEvolves(w, k, b', StepAt(w, k, t).world);
    } else {
      var d := w.(bodies := w.bodies[k := b']);
      NothingReported(w, StepAt(w, k, t).world);
      RemovedEvolves(w, k, d, StepAt(w, k, t).world);
    }
  }

  lemma WormKept(g: Grid, b: Body, t: int)
    requires b.kind.Lombric?
    ensures var b' := WormUpdate(g, b, t); b'.kind == b.kind && b'.id == b.id && (OnAir(g, b) ==> OnAir(g, b'))
  {
  }

  lemma BoxEvolves(w: World, k: nat, t: int)
    requires k < |w.bodies| && w.bodies[k].kind.Box?
    ensures Evolves(w, StepAt(w, k, t).world)
  {
    hide Evolves, Reported, OnAir, BoxMove, BoxLost;
    BoxKept(w.grid, w.bodies[k], t);
    var b' := BoxMove(w.grid, w.bodies[k], t);
    var bodies := w.bodies[k := b'];
    var j := FirstWormAt(bodies, b'.x, b'.y);
    if BoxLost(w.grid, w.bodies[k], t) {
      NothingReported(w, StepAt(w, k, t).world);
      RemovedEvolves(w, k, w, StepAt(w, k, t).world);
    } else if j < |bodies| {
      var healed := AddLife(bodies[j], b'.kind.health);
      HealedKept(w.grid, bodies[j], b'.kind.health);
      NothingReported(w, StepAt(w, k, t).world);
      RemovedEvolves(w, k, w.(bodies := bodies[j := healed]), StepAt(w, k, t).world);
    } else {
      AdvancedEvolves(w, k, b', StepAt(w, k, t).world);
    }
  }

  lemma BoxKept(g: Grid, b: Body, t: int)
    requires b.kind.Box?
    ensures var b' := BoxMove(g, b, t); b'.kind == b.kind && b'.id == b.id && (OnAir(g, b) ==> OnAir(g, b'))
  {
  }

  lemma HealedKept(g: Grid, b: Body, health: int)
    requires b.kind.Lombric?
    ensures OnAir(g, b) ==> OnAir(g, AddLife(b, health))
  {
  }

  /** A projectile explodes. */
  lemma BlastEvolves(w: World, k: nat, t: int, u: World, w': World)
    requires k < |w.bodies| && w.bodies[k].kind.Projectile?
    requires u == w.(bodies := w.bodies[k := w.bodies[k].(motion := None)])
    requires var d := DeathAt(u, k, t); w'.bodies == Erase(d.bodies, k) && w'.grid == d.grid && w'.deleted == d.deleted
    ensures Evolves(w, w')
  {
    var b := w.bodies[k];
    BlastReported(w, w', b.x, b.y, b.kind.radius);
    RemovedEvolves(w, k, DeathAt(u, k, t), w');
  }

  lemma MissileEvolves(w: World, k: nat, t: int)
    requires k < |w.bodies| && w.bodies[k].kind.Projectile?
    ensures Evolves(w, StepAt(w, k, t).world)
  {
    hide Evolves, Hits, ExplosedAll, Crater, Blast, Fill;
    var b := w.bodies[k];
    if b.motion.None? {
      AdvancedEvolves(w, k, b, StepAt(w, k, t).world);
    } else if Hits(w.grid, b.motion.value, t) {
      BlastEvolves(w, k, t, w.(bodies := w.bodies[k := b.(motion := None)]), StepAt(w, k, t).world);
    } else {
      var b' := b.(x := XAt(b.motion.value, t), y := YAt(b.motion.value, t));
      AdvancedEvolves(w, k, b', StepAt(w, k, t).world);
    }
  }

  lemma StepEvolves(w: World, k: nat, t: int)
    requires k < |w.bodies|
    ensures Evolves(w, StepAt(w, k, t).world)
  {
    hide Evolves, StepAt;
    match w.bodies[k].kind
    case Lombric(_) => WormEvolves(w, k, t);
    case Projectile(_, _) => MissileEvolves(w, k, t);
    case Box(_) => BoxEvolves(w, k, t);
  }

  lemma {:induction false} PassEvolves(w: World, k: nat, t: int, moving: bool)
    requires k <= |w.bodies|
    ensures Evolves(w, PassFrom(w, k, t, moving).0)
    decreases |w.bodies| - k
  {
    hide StepAt, Reported, OnAir;
    if k == |w.bodies| {
      NothingReported(w, w);
    } else {
      var o := StepAt(w, k, t);
      StepEvolves(w, k, t);
      PassEvolves(o.world, NextIndex(o, k), t, moving || o.moving);
      EvolvesTransitive(w, o.world, PassFrom(w, k, t, moving).0);
    }
  }

  /** What any update that returns does to the terrain and to the set of sprites. */
  lemma {:induction false} SettleEvolves(w: World, t: int)
    requires Settles(w, t)
    ensures Evolves(w, Settle(w, t))
    decreases Passes(w, t)
  {
    hide PassFrom, Evolves, Settles, Settle;
    SettlesStep(w, t);
    PassEvolves(w, 0, t, false);
    var (w', moving) := Pass(w, t);
    if moving {
      SettleEvolves(w', t + TICK);
      EvolvesTransitive(w, w', Settle(w, t));
    }
  }
}
