/** The worm whose turn it is stays alive until its round ends: a walk that costs a worm life ends the round
    (Server/src/partie_serv.cpp, Server/src/game.cpp). */
module CurrentWorm {
  import opened Options
  import opened Physics
  import opened Arena
  import opened Settling
  import opened Quiescence
  import opened Turns
  import opened GameRun

  /** No health box takes life away. */
  predicate Healthy(bodies: seq<Body>) {
    forall i :: 0 <= i < |bodies| && bodies[i].kind.Box? ==> bodies[i].kind.health >= 0
  }

  /** Sprites with an id are living worms. */
  predicate Vital(bodies: seq<Body>) {
    forall i :: 0 <= i < |bodies| && bodies[i].id != 0 ==>
      bodies[i].kind.Lombric? && 0 < bodies[i].life <= bodies[i].kind.maxLife
  }

  // ---------------------------------------------------------------- boxes

  lemma StepHealthy(w: World, k: nat, t: int)
    requires Healthy(w.bodies) && k < |w.bodies|
    ensures Healthy(StepAt(w, k, t).world.bodies)
  {
    hide UpdateAt, DeathAt;
    UpdateHealthy(w, k, t);
    var (u, alive) := UpdateAt(w, k, t);
    if !alive {
      var v := u.(turnOver := u.turnOver || (w.bodies[k].id != 0 && u.bodies[k].life != w.bodies[k].life));
      DeathHealthy(v, k, t);
      var d := DeathAt(v, k, t).bodies;
      assert forall i :: 0 <= i < |d| - 1 ==> Erase(d, k)[i] == d[if i < k then i else i + 1];
    }
  }

  lemma UpdateHealthy(w: World, k: nat, t: int)
    requires Healthy(w.bodies) && k < |w.bodies|
    ensures Healthy(UpdateAt(w, k, t).0.bodies)
  {
  }

  lemma DeathHealthy(u: World, k: nat, t: int)
    requires Healthy(u.bodies) && k < |u.bodies|
    ensures Healthy(DeathAt(u, k, t).bodies)
  {
  }

  lemma {:induction false} PassHealthy(w: World, k: nat, t: int, moving: bool)
    requires Healthy(w.bodies) && k <= |w.bodies|
    ensures Healthy(PassFrom(w, k, t, moving).0.bodies)
    decreases |w.bodies| - k
  {
    hide StepAt, Healthy;
    if k < |w.bodies| {
      var o := StepAt(w, k, t);
      StepHealthy(w, k, t);
      PassHealthy(o.world, NextIndex(o, k), t, moving || o.moving);
    }
  }

  lemma {:induction false} SettleHealthy(w: World, t: int)
    requires Healthy(w.bodies) && Settles(w, t)
    ensures Healthy(Settle(w, t).bodies)
    decreases Passes(w, t)
  {
    hide PassFrom, Settles, Settle, Healthy;
    SettlesStep(w, t);
    PassHealthy(w, 0, t, false);
    if Pass(w, t).1 {
      SettleHealthy(Pass(w, t).0, t + TICK);
    }
  }

  // ---------------------------------------------------------------- updates that do not end the turn

  /** The sprites with an id are the same. */
  ghost predicate SameNamed(a: seq<Body>, b: seq<Body>) {
    forall id: nat :: id != 0 ==> Ids(a)[id] == Ids(b)[id]
  }

  /** The state during a walk. */
  predicate Walking(w: World) {
    NoProjectile(w.bodies) && Healthy(w.bodies) && Vital(w.bodies)
  }

  lemma {:induction false} TurnStaysOver(w: World, k: nat, t: int, moving: bool)
    requires k <= |w.bodies|
    ensures w.turnOver ==> PassFrom(w, k, t, moving).0.turnOver
    decreases |w.bodies| - k
  {
    hide UpdateAt, DeathAt;
    if k < |w.bodies| {
      var o := StepAt(w, k, t);
      StepStaysOver(w, k, t);
      TurnStaysOver(o.world, NextIndex(o, k), t, moving || o.moving);
    }
  }

  lemma StepStaysOver(w: World, k: nat, t: int)
    requires k < |w.bodies|
    ensures w.turnOver ==> StepAt(w, k, t).world.turnOver
  {
    hide WormUpdate, BoxMove, BoxLost, Hits, Explosed;
  }

  /** An iteration that leaves the turn open removes no worm with an id, and keeps those alive. */
  lemma OpenStep(w: World, k: nat, t: int)
    requires Walking(w) && k < |w.bodies| && !StepAt(w, k, t).world.turnOver
    ensures var o := StepAt(w, k, t); Walking(o.world) && SameNamed(o.world.bodies, w.bodies)
  {
    hide UpdateAt, Vital, Healthy, NoProjectile, Erase, Reported, OnAir;
    StepHealthy(w, k, t);
    StepEvolves(w, k, t);
    UpdateVital(w, k, t);
    UnchangedIfOpen(w, k, t);
    var u := UpdateAt(w, k, t).0.bodies;
    IdsSame(w.bodies, u);
    if !StepAt(w, k, t).alive {
      IdsErased(u, k);
      ErasedVital(u, k);
    }
  }

  /** If the turn stays open, the updated sprite has no id or its life is what it was. */
  lemma UnchangedIfOpen(w: World, k: nat, t: int)
    requires NoProjectile(w.bodies) && k < |w.bodies| && !StepAt(w, k, t).world.turnOver
    requires UpdateAt(w, k, t).0.bodies[k].kind == w.bodies[k].kind
    ensures var o, (u, alive) := StepAt(w, k, t), UpdateAt(w, k, t);
            && (w.bodies[k].id == 0 || u.bodies[k].life == w.bodies[k].life)
            && o.alive == alive && o.world.bodies == if alive then u.bodies else Erase(u.bodies, k)
  {
    hide UpdateAt;
  }

  lemma UpdateVital(w: World, k: nat, t: int)
    requires Walking(w) && k < |w.bodies|
    ensures var (u, alive) := UpdateAt(w, k, t);
            && (forall i :: 0 <= i < |w.bodies| ==> u.bodies[i].id == w.bodies[i].id)
            && u.bodies[k].kind == w.bodies[k].kind
            && (w.bodies[k].id == 0 || u.bodies[k].life == w.bodies[k].life ==> Vital(u.bodies))
            && (w.bodies[k].id != 0 && u.bodies[k].life == w.bodies[k].life ==> alive)
  {
    hide Hits, Drowned, BoxLost;
  }

  lemma ErasedVital(bodies: seq<Body>, k: nat)
    requires k < |bodies| && Vital(bodies)
    ensures Vital(Erase(bodies, k))
  {
    assert forall i :: 0 <= i < |bodies| - 1 ==> Erase(bodies, k)[i] == bodies[if i < k then i else i + 1];
  }

  lemma {:induction false} OpenPass(w: World, k: nat, t: int, moving: bool)
    requires Walking(w) && k <= |w.bodies| && !PassFrom(w, k, t, moving).0.turnOver
    ensures var w' := PassFrom(w, k, t, moving).0; Walking(w') && SameNamed(w'.bodies, w.bodies)
    decreases |w.bodies| - k
  {
    hide StepAt, Walking;
    if k < |w.bodies| {
      var o := StepAt(w, k, t);
      TurnStaysOver(o.world, NextIndex(o, k), t, moving || o.moving);
      OpenStep(w, k, t);
      OpenPass(o.world, NextIndex(o, k), t, moving || o.moving);
    }
  }

  lemma {:induction false} SettleStaysOver(w: World, t: int)
    requires Settles(w, t)
    ensures w.turnOver ==> Settle(w, t).turnOver
    decreases Passes(w, t)
  {
    hide PassFrom, Settles, Settle;
    SettlesStep(w, t);
    TurnStaysOver(w, 0, t, false);
    if Pass(w, t).1 {
      SettleStaysOver(Pass(w, t).0, t + TICK);
    }
  }

  /** An update that leaves the turn open leaves every worm with an id. */
  lemma {:induction false} OpenSettle(w: World, t: int)
    requires Walking(w) && Settles(w, t) && !Settle(w, t).turnOver
    ensures SameNamed(Settle(w, t).bodies, w.bodies)
    decreases Passes(w, t)
  {
    hide PassFrom, Settles, Settle, Walking;
    SettlesStep(w, t);
    if Pass(w, t).1 {
      SettleStaysOver(Pass(w, t).0, t + TICK);
      OpenPass(w, 0, t, false);
      OpenSettle(Pass(w, t).0, t + TICK);
    } else {
      OpenPass(w, 0, t, false);
    }
  }

  // ---------------------------------------------------------------- games

  /** The current worm has an id and lives, and no box takes life away. */
  ghost predicate InPlay(g: Game) {
    g.current in Living(g.world.bodies) && Healthy(g.world.bodies)
  }

  predicate HealthyBox(box: Option<Body>) {
    box.Some? && box.value.kind.Box? ==> box.value.kind.health >= 0
  }

  lemma WalkingAfterMove(w: World, c: nat, x: int, y: int)
    requires AtRest(w) && AllAlive(w.bodies) && Healthy(w.bodies) && c < |w.bodies| && w.bodies[c].kind.Lombric?
    ensures Walking(MoveTo(w, c, x, y)) && SameNamed(MoveTo(w, c, x, y).bodies, w.bodies)
  {
    IdsSame(MoveTo(w, c, x, y).bodies, w.bodies);
  }

  lemma NamedLivesOn(a: World, b: World, id: nat)
    requires AtRest(a) && AllAlive(a.bodies) && AtRest(b) && AllAlive(b.bodies) && SameNamed(b.bodies, a.bodies)
    requires id in Living(a.bodies)
    ensures id in Living(b.bodies)
  {
    hide AtRest, AllAlive, Living;
    LivingAreIds(a, id);
    LivingAreIds(b, id);
  }

  lemma ValidAtRest(g: Game)
    requires Valid(g)
    ensures Playable(g.world) && AtRest(g.world) && AllAlive(g.world.bodies)
  {
    hide AtRest, AllAlive, NoneHangs;
  }

  /** A walk that does not end its round leaves the current worm alive. */
  lemma WalkKeepsCurrent(g: Game, c: nat, x: int, y: int)
    requires Valid(g) && InPlay(g) && c < |g.world.bodies| && g.world.bodies[c].kind.Lombric? && Settles(MoveTo(g.world, c, x, y), 0)
    ensures !Settle(MoveTo(g.world, c, x, y), 0).turnOver ==> g.current in Living(Settle(MoveTo(g.world, c, x, y), 0).bodies)
  {
    hide Settle, Settles, MoveTo, Walking, AtRest, AllAlive, Healthy, Living, Kept, Valid;
    ValidAtRest(g);
    WalkKept(g, c, x, y);
    var w := MoveTo(g.world, c, x, y);
    KeptAtRest(g, Settle(w, 0));
    WalkingAfterMove(g.world, c, x, y);
    if !Settle(w, 0).turnOver {
      OpenSettle(w, 0);
      NamedLivesOn(g.world, Settle(w, 0), g.current);
    }
  }

  lemma KeptAtRest(g: Game, w: World)
    requires Kept(g, w)
    ensures AtRest(w) && AllAlive(w.bodies)
  {
    hide AtRest, AllAlive, Living;
  }

  lemma ActedHealthy(g: Game, act: Act)
    requires Valid(g) && CanAct(g, act) && Healthy(g.world.bodies)
    ensures Healthy(Acted(g, act).bodies)
  {
    hide Settle, Settles, Playable, AllAlive;
    match act {
      case Fire(weapon, vx, vy, _, _) =>
        SettleHealthy(Fired(g.world, FindById(g.world.bodies, g.current), weapon, vx, vy), 0);
      case Walk(c, x, y, _, _) =>
        SettleHealthy(MoveTo(g.world, c, x, y), 0);
      case Expire(_, _) =>
    }
  }

  lemma RoundHealthy(g: Game, timeUp: bool, box: Option<Body>)
    requires Valid(g) && !g.over && RoundReturns(g, timeUp) && BoxFits(RoundWorld(g.world, timeUp).grid, box)
    requires Healthy(g.world.bodies) && HealthyBox(box)
    ensures Healthy(EndRound(g, timeUp, box).world.bodies)
  {
    hide Settle, Settles, Rise, AllAlive, NoneHangs, AtRest, AliveIds;
    RiseFits(g.world);
    RiseHealthy(g.world);
    if timeUp {
      SettleHealthy(Rise(g.world), 0);
    }
  }

  lemma RiseHealthy(w: World)
    ensures Healthy(Rise(w).bodies) == Healthy(w.bodies)
  {
  }

  lemma PlayKeepsCurrent(g: Game, act: Act)
    requires Allowed(g, act) && InPlay(g) && HealthyBox(act.box)
    ensures !Play(g, act).over ==> InPlay(Play(g, act))
  {
    hide *;
    PlayIs(g, act);
    InPlayIs(g);
    InPlayIs(Play(g, act));
    ActedHealthy(g, act);
    var w := Acted(g, act);
    if EndsRound(g, act) {
      RoundHealthy(g.(world := w), act.timeUp, act.box);
      EndRoundMeaning(g.(world := w), act.timeUp, act.box);
      ValidAtRest(g.(world := w));
      LivingIs(RoundWorld(w, act.timeUp).bodies);
      LivingIs(Play(g, act).world.bodies);
    } else {
      OnlyWalksGoOn(g, act);
      WalkKeepsCurrent(g, act.c, act.x, act.y);
    }
  }

  lemma InPlayIs(g: Game)
    ensures InPlay(g) <==> g.current in Living(g.world.bodies) && Healthy(g.world.bodies)
  {
    hide Living, Healthy;
  }

  lemma LivingIs(bodies: seq<Body>)
    ensures Living(bodies) == AliveIds(bodies) - {0}
  {
  }

  lemma OnlyWalksGoOn(g: Game, act: Act)
    requires Valid(g) && CanAct(g, act) && !EndsRound(g, act)
    ensures act.Walk? && act.c < |g.world.bodies| && g.world.bodies[act.c].kind.Lombric?
    ensures Settles(MoveTo(g.world, act.c, act.x, act.y), 0)
    ensures Acted(g, act) == Settle(MoveTo(g.world, act.c, act.x, act.y), 0) && !Acted(g, act).turnOver
  {
    hide Settle, Settles, Valid, MoveTo;
  }

  /** In a game that starts with a living current worm, and in which no box takes life away, the current worm
      lives whenever it is its turn to act. */
  lemma {:induction false} CurrentLives(games: seq<Game>, acts: seq<Act>, k: nat)
    requires IsGame(games, acts) && k <= |acts| && !games[k].over
    requires InPlay(games[0]) && forall m :: 0 <= m < |acts| ==> HealthyBox(acts[m].box)
    ensures InPlay(games[k]) && games[k].current in AliveIds(games[k].world.bodies)
    ensures FindById(games[k].world.bodies, games[k].current) < |games[k].world.bodies|
  {
    hide Play, Valid, CanAct, EndsRound, Healthy;
    if k > 0 {
      assert Allowed(games[k - 1], acts[k - 1]);
      CurrentLives(games, acts, k - 1);
      PlayKeepsCurrent(games[k - 1], acts[k - 1]);
    }
  }
}
