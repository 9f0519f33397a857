/** Whole games on values (Server/src/game.cpp): players shoot and walk, rounds end, the water rises once
    the game's time has elapsed, and the game is over when at most one team is left. */
module GameRun {
  import opened Options
  import opened Terrain
  import opened Arena
  import opened Settling
  import opened Quiescence
  import opened Trapped
  import opened Turns
  import opened Shots
  import opened Scheduler
  import opened Search

  /** isLombAlive. */
  predicate LombAlive(bodies: seq<Body>, id: nat) {
    var i := FindById(bodies, id);
    i < |bodies| && bodies[i].kind.Lombric? && bodies[i].life > 0
  }

  function AliveIds(bodies: seq<Body>): (r: set<nat>)
    ensures forall id: nat :: id in r <==> LombAlive(bodies, id)
  {
    var ids := set i: nat | i < |bodies| :: bodies[i].id;
    set id | id in ids && LombAlive(bodies, id)
  }

  predicate AllAlive(bodies: seq<Body>) {
    forall i :: 0 <= i < |bodies| && bodies[i].kind.Lombric? ==> bodies[i].life > 0
  }

  lemma {:induction false} IdsAreIds(bodies: seq<Body>, id: nat)
    ensures id in Ids(bodies) <==> exists i :: 0 <= i < |bodies| && bodies[i].id == id
  {
    if bodies != [] {
      IdsAreIds(bodies[1..], id);
      if exists i :: 0 <= i < |bodies| && bodies[i].id == id {
        var i :| 0 <= i < |bodies| && bodies[i].id == id;
        assert i > 0 ==> bodies[1..][i - 1].id == id;
      }
    }
  }

  /** The ids other than 0 of living worms; a worm with id 0 fills an empty slot. */
  function Living(bodies: seq<Body>): set<nat> {
    AliveIds(bodies) - {0}
  }

  /** Between two acts these are the ids other than 0 of all sprites left. */
  lemma LivingAreIds(w: World, id: nat)
    requires AtRest(w) && AllAlive(w.bodies)
    ensures id in Living(w.bodies) <==> id in Ids(w.bodies) && id != 0
  {
    IdsAreIds(w.bodies, id);
  }

  lemma LivingShrinks(many: World, few: World)
    requires AtRest(many) && AllAlive(many.bodies) && AtRest(few) && AllAlive(few.bodies)
    requires Ids(few.bodies) <= Ids(many.bodies) + multiset{0}
    ensures Living(few.bodies) <= Living(many.bodies)
  {
    hide AtRest, AllAlive, Living;
    forall id | id in Living(few.bodies)
      ensures id in Living(many.bodies)
    {
      LivingAreIds(few, id);
      LivingAreIds(many, id);
    }
  }

  lemma QuiescentAllAlive(w: World)
    requires Quiescent(w)
    ensures AllAlive(w.bodies)
  {
  }

  // ---------------------------------------------------------------- the water

  function Rise(w: World): World {
    w.(grid := Flood(w.grid, w.grid.water + 1))
  }

  /** Rising water frees no worm to hang: one just above the cleared row is above the kill row no more. */
  lemma RiseFits(w: World)
    requires Playable(w) && w.grid.water + 1 < w.grid.height
    ensures Playable(Rise(w)) && Inv(Rise(w), 0, 0) && NoProjectile(Rise(w).bodies)
    ensures Settles(Rise(w), 0)
  {
    hide Settles, Flood, Inv, Struck, Drowned;
    var r := Rise(w);
    AtRestFits(r, 0);
    forall i | 0 <= i < |r.bodies|
      ensures !Hanging(r.grid, r.bodies[i], 0)
    {
      DrownsMore(w.grid, r.grid, w.bodies[i].y);
      assert !Hanging(w.grid, w.bodies[i], Due(0, 0, i));
    }
    UpdateReturnsIff(r, 0);
  }

  lemma DrownsMore(g: Grid, risen: Grid, y: int)
    requires risen == Flood(g, g.water + 1) && g.water + 1 < g.height
    ensures Drowned(g, y) ==> Drowned(risen, y)
    ensures y + 1 == g.height - g.water - 1 ==> Drowned(risen, y)
  {
    hide Flood;
  }

  /** The world a round ends with: if the time is up the water rises and the world settles. */
  ghost function RoundWorld(w: World, timeUp: bool): World
    requires Playable(w) && w.grid.water + 1 < w.grid.height
  {
    RiseFits(w);
    if timeUp then Settle(Rise(w), 0) else w
  }

  lemma RoundWorldMeaning(w: World, timeUp: bool)
    requires Playable(w) && AllAlive(w.bodies) && w.grid.water + 1 < w.grid.height
    ensures var r := RoundWorld(w, timeUp);
            && Playable(r) && AllAlive(r.bodies) && (Named(w.bodies) ==> Named(r.bodies))
            && Ids(r.bodies) <= Ids(w.bodies)
            && r.grid == (if timeUp then Flood(w.grid, w.grid.water + 1) else w.grid)
            && (if timeUp then Quiescent(r) else r == w)
  {
    hide Settle, Settles, Flood, Rise, Playable, Named, AllAlive, Quiescent, Ids;
    if timeUp {
      LateRoundMeaning(w);
    }
  }

  lemma LateRoundMeaning(w: World)
    requires Playable(w) && w.grid.water + 1 < w.grid.height
    ensures Settles(Rise(w), 0)
    ensures var r := Settle(Rise(w), 0);
            && Playable(r) && Quiescent(r) && AllAlive(r.bodies) && (Named(w.bodies) ==> Named(r.bodies))
            && Ids(r.bodies) <= Ids(w.bodies) && r.grid == Flood(w.grid, w.grid.water + 1)
  {
    hide Settle, Settles, Flood, Playable, Inv, AllAlive, AllOnAir, NoProjectile, Quiescent, Named, Reported;
    RiseFits(w);
    SettleIsPlayable(Rise(w));
    QuiescentAllAlive(Settle(Rise(w), 0));
  }

  /** When only the top row is left dry, no worm survives. */
  lemma NoWormAtHighWater(w: World)
    requires Quiescent(w) && w.grid.water == w.grid.height - 1
    ensures forall i :: 0 <= i < |w.bodies| ==> !w.bodies[i].kind.Lombric?
  {
  }

  lemma NoWormNoTeam(bodies: seq<Body>, players: seq<Player>)
    requires forall i :: 0 <= i < |bodies| ==> !bodies[i].kind.Lombric?
    ensures AliveTeams(players, AliveIds(bodies)) == {}
  {
    assert AliveIds(bodies) == {};
  }

  // ---------------------------------------------------------------- rounds

  /** current is the id of the worm whose turn it is. */
  datatype Game = Game(world: World, table: Table, current: nat, over: bool)

  ghost predicate Valid(g: Game) {
    && Playable(g.world) && AllAlive(g.world.bodies) && g.table.Valid()
    && (!g.over ==> g.world.grid.water + 1 < g.world.grid.height)
  }

  /** A new health box, if there is one, stands on AIR. */
  predicate BoxFits(g: Grid, box: Option<Body>) {
    box.Some? ==>
      var b := box.value;
      b.id == 0 && b.kind.Box? && b.motion.None? && OnAir(g, b)
  }

  function WithBox(w: World, box: Option<Body>): World {
    if box.Some? then w.(bodies := w.bodies + [box.value]) else w
  }

  /** If two teams are left the scheduling loop ends. */
  ghost predicate TurnReturns(t: Table, alive: set<nat>)
    requires t.Valid()
  {
    |AliveTeams(t.players, alive)| > 1 ==> LoopEnds(t, alive)
  }

  /** The part of end_round after the water has risen, with w the world then. */
  ghost function EndWith(g: Game, w: World, box: Option<Body>): Game
    requires g.table.Valid() && TurnReturns(g.table, AliveIds(w.bodies))
  {
    var alive := AliveIds(w.bodies);
    if |AliveTeams(g.table.players, alive)| <= 1 then g.(world := w, over := true)
    else
      var (t, id) := LoopResult(g.table, alive);
      Game(WithBox(w.(turnOver := false), box), t, id, false)
  }

  /** end_round returns. */
  ghost predicate RoundReturns(g: Game, timeUp: bool)
    requires Valid(g) && !g.over
  {
    TurnReturns(g.table, AliveIds(RoundWorld(g.world, timeUp).bodies))
  }

  /** It does if and only if at most one team is left, or some player reaches a living worm with an id. */
  lemma RoundReturnsIff(g: Game, timeUp: bool)
    requires Valid(g) && !g.over
    ensures var alive := AliveIds(RoundWorld(g.world, timeUp).bodies);
            RoundReturns(g, timeUp) <==>
              || |AliveTeams(g.table.players, alive)| <= 1
              || exists i :: 0 <= i < |g.table.players| && CanReach(g.table.players[i], alive, g.table.nb)
  {
    hide RoundWorld, AliveIds, AliveTeams, LoopEnds, Playable, AllAlive, CanReach;
    LoopEndsIff(g.table, AliveIds(RoundWorld(g.world, timeUp).bodies));
  }

  /** end_round. */
  ghost function EndRound(g: Game, timeUp: bool, box: Option<Body>): Game
    requires Valid(g) && !g.over && RoundReturns(g, timeUp)
  {
    EndWith(g, RoundWorld(g.world, timeUp), box)
  }

  lemma HighWaterEnds(w: World, players: seq<Player>)
    requires Quiescent(w) && w.grid.water == w.grid.height - 1
    ensures |AliveTeams(players, AliveIds(w.bodies))| == 0
  {
    NoWormAtHighWater(w);
    NoWormNoTeam(w.bodies, players);
  }

  lemma EndWithMeaning(g: Game, w: World, box: Option<Body>)
    requires g.table.Valid() && TurnReturns(g.table, AliveIds(w.bodies)) && BoxFits(w.grid, box)
    requires Playable(w) && AllAlive(w.bodies)
    requires w.grid.water == w.grid.height - 1 ==> Quiescent(w)
    ensures var g' := EndWith(g, w, box);
            && Valid(g') && g'.world.grid == w.grid
            && (g'.over <==> |AliveTeams(g.table.players, AliveIds(w.bodies))| <= 1)
            && g'.world.deleted == w.deleted && (g'.over ==> g'.world == w)
            && (!g'.over ==> !g'.world.turnOver && g'.world.bodies == w.bodies + (if box.Some? then [box.value] else []))
            && (!g'.over ==> AliveIds(g'.world.bodies) == AliveIds(w.bodies))
            && (!g'.over ==> g'.current == WormToPlay(g'.table) && g'.current in Living(w.bodies))
            && (Named(w.bodies) ==> Named(g'.world.bodies))
  {
    var alive := AliveIds(w.bodies);
    WaterInside(w);
    hide Playable, AllAlive, Quiescent, AliveTeams, AliveIds, BoxFits, Named, LoopEnds, LoopResult;
    if w.grid.water == w.grid.height - 1 {
      HighWaterEnds(w, g.table.players);
    }
    if |AliveTeams(g.table.players, alive)| > 1 {
      BoxAdded(w, box);
      ResultIsToPlay(g.table, alive);
    }
  }

  lemma WaterInside(w: World)
    requires Playable(w)
    ensures w.grid.water < w.grid.height
  {
  }

  /** What a round end keeps: the invariant; and the water has risen by one row if the time is up, which
      ends the game when only the top row is left. If the game goes on, the current worm is the current
      player's, and lives, the turn is open, and a new box is behind all other sprites. */
  lemma EndRoundMeaning(g: Game, timeUp: bool, box: Option<Body>)
    requires Valid(g) && !g.over && RoundReturns(g, timeUp) && BoxFits(RoundWorld(g.world, timeUp).grid, box)
    ensures var g', w := EndRound(g, timeUp, box), RoundWorld(g.world, timeUp);
            && Valid(g')
            && g'.world.grid == (if timeUp then Flood(g.world.grid, g.world.grid.water + 1) else g.world.grid)
            && (g'.over <==> |AliveTeams(g.table.players, AliveIds(w.bodies))| <= 1)
            && (!timeUp ==> w == g.world) && g'.world.deleted == w.deleted && (g'.over ==> g'.world == w)
            && (!g'.over ==> !g'.world.turnOver && g'.world.bodies == w.bodies + (if box.Some? then [box.value] else []))
            && (!g'.over ==> AliveIds(g'.world.bodies) == AliveIds(w.bodies))
            && (!g'.over ==> g'.current == WormToPlay(g'.table) && g'.current in Living(w.bodies))
            && (Named(g.world.bodies) ==> Named(g'.world.bodies))
  {
    hide RoundWorld, Flood, EndWith, TurnReturns, Playable, Named, AllAlive, Quiescent, AliveIds, AliveTeams, BoxFits;
    RoundWorldMeaning(g.world, timeUp);
    EndWithMeaning(g, RoundWorld(g.world, timeUp), box);
  }

  /** A new box changes neither who is alive nor what can be played. */
  lemma BoxAdded(w: World, box: Option<Body>)
    requires Playable(w) && AllAlive(w.bodies) && BoxFits(w.grid, box)
    ensures var b := WithBox(w.(turnOver := false), box);
            && Playable(b) && AllAlive(b.bodies) && AliveIds(b.bodies) == AliveIds(w.bodies) && b.grid == w.grid
            && (Named(w.bodies) ==> Named(b.bodies))
  {
    if box.Some? {
      var b := WithBox(w.(turnOver := false), box);
      forall i | 0 <= i < |b.bodies|
        ensures b.bodies[i] == if i < |w.bodies| then w.bodies[i] else box.value
      {
      }
      forall id: nat
        ensures LombAlive(b.bodies, id) <==> LombAlive(w.bodies, id)
      {
        BoxIsNobody(w.bodies, box.value, id);
      }
    }
  }

  lemma {:induction false} BoxIsNobody(bodies: seq<Body>, box: Body, id: nat)
    requires box.kind.Box?
    ensures LombAlive(bodies + [box], id) <==> LombAlive(bodies, id)
  {
    if bodies == [] {
      assert bodies + [box] == [box];
    } else {
      assert (bodies + [box])[1..] == bodies[1..] + [box];
      assert forall i :: 0 <= i < |bodies| ==> (bodies + [box])[i] == bodies[i];
      BoxIsNobody(bodies[1..], box, id);
    }
  }

  // ---------------------------------------------------------------- games

  /** What happens in a game: the current player shoots, some worm is walked, or the
      round's time is up; each says whether the game's time has elapsed and which box appears if it
      ends the round. */
  datatype Act =
    | Fire(weapon: Weapon, vx: real, vy: real, timeUp: bool, box: Option<Body>)
    | Walk(c: nat, x: int, y: int, timeUp: bool, box: Option<Body>)
    | Expire(timeUp: bool, box: Option<Body>)

  /** The act's own simulation ends. */
  ghost predicate CanAct(g: Game, act: Act) {
    match act
    case Fire(weapon, vx, vy, _, _) =>
      var c := FindById(g.world.bodies, g.current);
      c < |g.world.bodies| && Settles(Fired(g.world, c, weapon, vx, vy), 0)
    case Walk(c, x, y, _, _) =>
      && c < |g.world.bodies| && g.world.bodies[c].kind.Lombric?
      && AcceptsMove(g.world.bodies[c], x, y) && Settles(MoveTo(g.world, c, x, y), 0)
    case Expire(_, _) => true
  }

  /** Which acts these are: all shots by a worm that is there, except missiles that strand a worm, and all
      accepted walks, into walls too, to cells that can hold a worm. */
  lemma CanActIff(g: Game, act: Act)
    requires Valid(g)
    ensures CanAct(g, act) <==>
            match act
            case Fire(weapon, vx, vy, _, _) =>
              var c := FindById(g.world.bodies, g.current);
              && c < |g.world.bodies|
              && (weapon.LanceMissile? ==>
                    forall i :: 0 <= i < |g.world.bodies| ==> !Stranded(g.world.grid, g.world.bodies[i], ShotImpact(g.world, c, vx, vy)))
            case Walk(c, x, y, _, _) =>
              && c < |g.world.bodies| && g.world.bodies[c].kind.Lombric?
              && AcceptsMove(g.world.bodies[c], x, y) && CanHold(g.world.grid, x, y)
            case Expire(_, _) => true
  {
    hide Settles, Stranded, CanHold, ShotImpact, NoneHangs;
    match act {
      case Fire(weapon, vx, vy, _, _) =>
        var c := FindById(g.world.bodies, g.current);
        if c < |g.world.bodies| {
          ShotReturnsIff(g.world, c, weapon, vx, vy);
        }
      case Walk(c, x, y, _, _) =>
        if c < |g.world.bodies| && g.world.bodies[c].kind.Lombric? {
          MoveReturnsIff(g.world, c, x, y);
        }
      case Expire(_, _) =>
    }
  }

  /** The world when the act itself has been simulated. */
  ghost function Acted(g: Game, act: Act): World
    requires Valid(g) && CanAct(g, act)
  {
    match act
    case Fire(weapon, vx, vy, _, _) => UseWeapon(g.world, FindById(g.world.bodies, g.current), weapon, vx, vy)
    case Walk(c, x, y, _, _) => Settle(MoveTo(g.world, c, x, y), 0)
    case Expire(_, _) => g.world
  }

  /** Shots and time-outs end the round; a walk does if it cost a worm life. */
  ghost predicate EndsRound(g: Game, act: Act)
    requires Valid(g) && CanAct(g, act)
  {
    act.Walk? ==> Acted(g, act).turnOver
  }

  /** What an act keeps: the invariant; it may destroy terrain and worms, but brings none back. */
  ghost predicate Kept(g: Game, w: World) {
    && Valid(g.(world := w)) && Erodes(g.world.grid, w.grid) && w.grid.water == g.world.grid.water
    && Living(w.bodies) <= Living(g.world.bodies) && (Named(g.world.bodies) ==> Named(w.bodies))
  }

  lemma KeptFrom(g: Game, w: World)
    requires Valid(g) && Playable(w) && Quiescent(w) && (Named(g.world.bodies) ==> Named(w.bodies))
    requires Erodes(g.world.grid, w.grid) && w.grid.water == g.world.grid.water
    requires Ids(w.bodies) <= Ids(g.world.bodies) + multiset{0}
    ensures Kept(g, w)
  {
    hide AtRest, NoneHangs, Living, Named, Quiescent, AllAlive;
    QuiescentAllAlive(w);
    LivingShrinks(g.world, w);
  }

  lemma FireKept(g: Game, c: nat, weapon: Weapon, vx: real, vy: real)
    requires Valid(g) && c < |g.world.bodies| && Settles(Fired(g.world, c, weapon, vx, vy), 0)
    ensures Kept(g, UseWeapon(g.world, c, weapon, vx, vy))
  {
    hide UseWeapon, NoneHangs, AtRest, Quiescent, Named, Kept, AllAlive, Reported, Settles;
    UseWeaponMeaning(g.world, c, weapon, vx, vy);
    KeptFrom(g, UseWeapon(g.world, c, weapon, vx, vy));
  }

  lemma WalkKept(g: Game, c: nat, x: int, y: int)
    requires Valid(g) && c < |g.world.bodies| && g.world.bodies[c].kind.Lombric? && Settles(MoveTo(g.world, c, x, y), 0)
    ensures Kept(g, Settle(MoveTo(g.world, c, x, y), 0))
  {
    hide Settle, Settles, MoveTo, NoneHangs, AtRest, Quiescent, Named, Kept, AllAlive;
    MoveMeaning(g.world, c, x, y);
    KeptFrom(g, Settle(MoveTo(g.world, c, x, y), 0));
  }

  lemma ActedMeaning(g: Game, act: Act)
    requires Valid(g) && CanAct(g, act)
    ensures Kept(g, Acted(g, act))
  {
    hide UseWeapon, Kept, Settle, Settles;
    match act {
      case Fire(weapon, vx, vy, _, _) =>
        FireKept(g, FindById(g.world.bodies, g.current), weapon, vx, vy);
      case Walk(c, x, y, _, _) =>
        WalkKept(g, c, x, y);
      case Expire(_, _) =>
        NothingDone(g);
    }
  }

  lemma NothingDone(g: Game)
    requires Valid(g)
    ensures Kept(g, g.world)
  {
    hide AtRest, NoneHangs, Named;
    assert g.(world := g.world) == g;
  }

  /** If the act ends its round, end_round returns, and a new box fits the terrain then. */
  ghost predicate Allowed(g: Game, act: Act) {
    && Valid(g) && !g.over && CanAct(g, act)
    && (ActedMeaning(g, act);
        EndsRound(g, act) ==>
          && RoundReturns(g.(world := Acted(g, act)), act.timeUp)
          && BoxFits(RoundWorld(Acted(g, act), act.timeUp).grid, act.box))
  }

  ghost function Play(g: Game, act: Act): Game
    requires Allowed(g, act)
  {
    ActedMeaning(g, act);
    var g' := g.(world := Acted(g, act));
    if EndsRound(g, act) then EndRound(g', act.timeUp, act.box) else g'
  }

  lemma PlayIs(g: Game, act: Act)
    requires Allowed(g, act)
    ensures Valid(g) && CanAct(g, act)
    ensures var g' := g.(world := Acted(g, act));
            && Kept(g, g'.world) && Valid(g') && !g'.over && g'.world.grid.water + 1 < g'.world.grid.height
            && (EndsRound(g, act) ==>
                  && RoundReturns(g', act.timeUp) && BoxFits(RoundWorld(g'.world, act.timeUp).grid, act.box)
                  && Play(g, act) == EndRound(g', act.timeUp, act.box))
            && (!EndsRound(g, act) ==> Play(g, act) == g')
  {
    hide Acted, CanAct, RoundWorld, RoundReturns, EndRound, EndsRound, AtRest, NoneHangs, Named, AllAlive, AliveIds, Erodes, BoxFits;
    ActedMeaning(g, act);
  }

  lemma PlayMeaning(g: Game, act: Act)
    requires Allowed(g, act)
    ensures Valid(g) && CanAct(g, act)
    ensures var g' := Play(g, act);
            && Valid(g') && g'.world.grid.height == g.world.grid.height
            && g'.world.grid.water == g.world.grid.water + (if EndsRound(g, act) && act.timeUp then 1 else 0)
            && (g'.over ==> EndsRound(g, act))
  {
    hide Acted, CanAct, RoundWorld, EndRound, Valid, EndsRound, Play, Living, Named, RoundReturns, BoxFits, Allowed;
    PlayIs(g, act);
    if EndsRound(g, act) {
      EndRoundMeaning(g.(world := Acted(g, act)), act.timeUp, act.box);
    }
  }

  /** A game from a valid start with dry ground; nothing is played after its end. */
  ghost predicate IsGame(games: seq<Game>, acts: seq<Act>) {
    && |games| == |acts| + 1
    && Valid(games[0]) && !games[0].over && games[0].world.grid.water == 0
    && forall k :: 0 <= k < |acts| ==> Allowed(games[k], acts[k]) && games[k + 1] == Play(games[k], acts[k])
  }

  /** The number of rounds among the first k acts that ended after the game's time had elapsed. */
  ghost function LateRounds(games: seq<Game>, acts: seq<Act>, k: nat): nat
    requires IsGame(games, acts) && k <= |acts|
  {
    if k == 0 then 0
    else LateRounds(games, acts, k - 1) + if EndsRound(games[k - 1], acts[k - 1]) && acts[k - 1].timeUp then 1 else 0
  }

  lemma {:induction false} WaterCountsLateRounds(games: seq<Game>, acts: seq<Act>, k: nat)
    requires IsGame(games, acts) && k <= |acts|
    ensures Valid(games[k]) && games[k].world.grid.height == games[0].world.grid.height
    ensures games[k].world.grid.water == LateRounds(games, acts, k)
  {
    if k > 0 {
      WaterCountsLateRounds(games, acts, k - 1);
      PlayMeaning(games[k - 1], acts[k - 1]);
    }
  }

  /** The water forces an end: every game is over after at most height - 1 rounds that end once the time
      has elapsed, and each rise clears a row inside the map, below its top row. */
  lemma WaterForcesEnd(games: seq<Game>, acts: seq<Act>, k: nat)
    requires IsGame(games, acts) && k <= |acts|
    ensures LateRounds(games, acts, k) <= games[0].world.grid.height - 1
    ensures LateRounds(games, acts, k) == games[0].world.grid.height - 1 ==> games[k].over
    ensures k < |acts| && EndsRound(games[k], acts[k]) && acts[k].timeUp ==>
              0 < games[k].world.grid.height - (games[k].world.grid.water + 1) < games[k].world.grid.height
  {
    WaterCountsLateRounds(games, acts, k);
    if k > 0 {
      WaterCountsLateRounds(games, acts, k - 1);
    }
  }

  /** The game ends at the first round end with at most one team left, and only there. */
  lemma EndsWithLastTeam(games: seq<Game>, acts: seq<Act>, k: nat)
    requires IsGame(games, acts) && k < |acts|
    ensures games[k + 1].over <==>
              && EndsRound(games[k], acts[k])
              && (ActedMeaning(games[k], acts[k]);
                  |AliveTeams(games[k].table.players,
                              AliveIds(RoundWorld(Acted(games[k], acts[k]), acts[k].timeUp).bodies))| <= 1)
  {
    LastTeamEnds(games[k], acts[k]);
    hide EndsRound, Play, Valid, AliveTeams;
  }

  lemma LastTeamEnds(g: Game, act: Act)
    requires Allowed(g, act)
    ensures Play(g, act).over <==>
              && EndsRound(g, act)
              && (ActedMeaning(g, act);
                  |AliveTeams(g.table.players, AliveIds(RoundWorld(Acted(g, act), act.timeUp).bodies))| <= 1)
  {
    hide *;
    PlayIs(g, act);
    if EndsRound(g, act) {
      EndRoundMeaning(g.(world := Acted(g, act)), act.timeUp, act.box);
    }
  }
}
