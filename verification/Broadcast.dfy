/** A client that watches a whole game: it simulates each shot by itself, receives the server's list of
    destroyed cells, and processes every NEXT_ROUND (Server/src/game.cpp, Client/src/partie.cpp). */
module Broadcast {
  import opened Options
  import opened Terrain
  import opened Turns
  import opened GameRun
  import opened Replica

  /** An explosion of the client's own simulation: its cell and its radius. */
  datatype Burst = Burst(x: int, y: int, radius: int)

  function Blasted(c: Client, bursts: seq<Burst>): Client {
    if bursts == [] then c
    else LocalBlast(Blasted(c, bursts[..|bursts| - 1]), bursts[|bursts| - 1].x, bursts[|bursts| - 1].y, bursts[|bursts| - 1].radius)
  }

  /** What an act does to the terrain: a shot destroys the cells whose coordinates are sent. */
  lemma ActedTerrain(g: Game, act: Act)
    requires Valid(g) && CanAct(g, act)
    ensures var w := Acted(g, act);
            if act.Fire? then |w.deleted| % 2 == 0 && w.grid == Fill(g.world.grid, Cells(w.deleted), AIR)
            else w.grid == g.world.grid
  {
    match act {
      case Fire(weapon, vx, vy, _, _) =>
        UseWeaponMeaning(g.world, FindById(g.world.bodies, g.current), weapon, vx, vy);
      case Walk(c, x, y, _, _) =>
        MoveMeaning(g.world, c, x, y);
      case Expire(_, _) =>
    }
    hide *;
  }

  /** The coordinates sent after a shot. */
  ghost function Sent(g: Game, act: Act): Coords
    requires Valid(g) && CanAct(g, act) && act.Fire?
  {
    ActedTerrain(g, act);
    Acted(g, act).deleted
  }

  /** The client's state after an act of the game, in which its own simulation had the given explosions. */
  ghost function Watched(c: Client, g: Game, act: Act, bursts: seq<Burst>): Client
    requires Allowed(g, act)
  {
    var c' := if act.Fire? then Blasted(c, bursts).(destroyByServ := Sent(g, act)) else c;
    if EndsRound(g, act) && !Play(g, act).over then NextRound(c', Play(g, act).world.grid.water) else c'
  }

  /** The client's terrain and water are the game's, and nothing is left to undo or to apply. */
  ghost predicate Agrees(c: Client, g: Game) {
    c.grid == g.world.grid && c.blockDeleted == [] && Settled(c) && Wet(c.grid)
  }

  /** The system between two acts, or between a shot and the end of its round. */
  function Between(c: Client, grid: Grid, fired: bool): System {
    System(grid, [], None, c, fired)
  }

  lemma BetweenInStep(c: Client, g: Game)
    requires Agrees(c, g)
    ensures InStep(Between(c, g.world.grid, false))
  {
    SameGrid(Restored(c), c.grid);
  }

  lemma {:induction false} BlastsKeepInStep(s: System, bursts: seq<Burst>)
    requires InStep(s)
    ensures InStep(s.(client := Blasted(s.client, bursts)))
  {
    hide InStep, LocalBlast;
    if bursts == [] {
      assert s.(client := s.client) == s;
    } else {
      var n := |bursts| - 1;
      BlastsKeepInStep(s, bursts[..n]);
      StepKeepsInStep(s.(client := Blasted(s.client, bursts[..n])), ClientBlast(bursts[n].x, bursts[n].y, bursts[n].radius));
    }
  }

  /** A shot, the client's own simulation of it, and the server's list. */
  lemma ShotKeepsInStep(c: Client, grid: Grid, sent: Coords, bursts: seq<Burst>)
    requires InStep(Between(c, grid, false))
    ensures InStep(Between(Blasted(c, bursts).(destroyByServ := sent), Fill(grid, Cells(sent), AIR), true))
  {
    hide InStep, Settled, Blasted, Fill, Cells;
    var s := Between(c, grid, false);
    StepKeepsInStep(s, ServerShot(sent));
    var shot := Replica.Step(s, ServerShot(sent));
    BlastsKeepInStep(shot, bursts);
    StepKeepsInStep(shot.(client := Blasted(shot.client, bursts)), ClientShot);
  }

  /** The end of a round on both sides. */
  lemma RoundAgrees(c: Client, grid: Grid, rise: bool, fired: bool)
    requires InStep(Between(c, grid, fired)) && (rise ==> grid.water < grid.height)
    ensures var after := if rise then Flood(grid, grid.water + 1) else grid;
            var c' := NextRound(c, after.water);
            c'.grid == after && c'.blockDeleted == [] && Settled(c') && Wet(c'.grid)
  {
    hide InStep, Settled, Flood, Wet;
    var s := Between(c, grid, fired);
    StepKeepsInStep(s, ServerRound(rise));
    var round := Replica.Step(s, ServerRound(rise));
    StepKeepsInStep(round, ClientRound);
    AfterRound(c, round.server.water);
    ServerIsWet(Replica.Step(round, ClientRound));
  }

  lemma ServerIsWet(s: System)
    requires InStep(s)
    ensures Wet(s.server)
  {
  }

  lemma ActAgrees(c: Client, g: Game, act: Act, bursts: seq<Burst>)
    requires Agrees(c, g) && Allowed(g, act) && !Play(g, act).over
    ensures Agrees(Watched(c, g, act, bursts), Play(g, act))
  {
    hide InStep, Acted, NextRound, Flood, Wet, Settled, Fill, Cells, Valid, CanAct, EndRound, RoundWorld, Blasted;
    BetweenInStep(c, g);
    ActedTerrain(g, act);
    if act.Fire? {
      ShotKeepsInStep(c, g.world.grid, Sent(g, act), bursts);
    }
    var c' := if act.Fire? then Blasted(c, bursts).(destroyByServ := Sent(g, act)) else c;
    PlayedTerrain(g, act);
    if EndsRound(g, act) {
      RoundAgrees(c', Acted(g, act).grid, act.timeUp, act.Fire?);
    }
  }

  /** The terrain after an act, and after the round it may end. */
  lemma PlayedTerrain(g: Game, act: Act)
    requires Allowed(g, act)
    ensures var grid := Acted(g, act).grid;
            && (act.timeUp ==> grid.water < grid.height)
            && Play(g, act).world.grid == if EndsRound(g, act) && act.timeUp then Flood(grid, grid.water + 1) else grid
  {
    hide *;
    PlayIs(g, act);
    if EndsRound(g, act) {
      EndRoundMeaning(g.(world := Acted(g, act)), act.timeUp, act.box);
    }
  }

  /** A client that starts with the game's terrain and sees every act. */
  ghost predicate IsWatched(clients: seq<Client>, games: seq<Game>, acts: seq<Act>, bursts: seq<seq<Burst>>) {
    && IsGame(games, acts) && |clients| == |games| && |bursts| == |acts|
    && clients[0] == Client(games[0].world.grid, [], [])
    && forall k :: 0 <= k < |acts| ==> clients[k + 1] == Watched(clients[k], games[k], acts[k], bursts[k])
  }

  /** Throughout a game the client's terrain and water level are the server's after every act, whatever
      its own simulations destroyed. */
  lemma {:induction false} ClientSeesTheGame(clients: seq<Client>, games: seq<Game>, acts: seq<Act>, bursts: seq<seq<Burst>>, k: nat)
    requires IsWatched(clients, games, acts, bursts) && k <= |acts| && !games[k].over
    ensures Agrees(clients[k], games[k])
  {
    hide *;
    WatchedFrom(clients, games, acts, bursts, k);
    if k == 0 {
      StartAgrees(games[0]);
    } else {
      ClientSeesTheGame(clients, games, acts, bursts, k - 1);
      ActAgrees(clients[k - 1], games[k - 1], acts[k - 1], bursts[k - 1]);
    }
  }

  lemma WatchedFrom(clients: seq<Client>, games: seq<Game>, acts: seq<Act>, bursts: seq<seq<Burst>>, k: nat)
    requires IsWatched(clients, games, acts, bursts) && k <= |acts|
    ensures |clients| == |games| == |acts| + 1 && |bursts| == |acts|
    ensures k == 0 ==> games[k].world.grid.water == 0 && clients[k] == Client(games[k].world.grid, [], [])
    ensures k > 0 ==>
              && Allowed(games[k - 1], acts[k - 1]) && !games[k - 1].over && games[k] == Play(games[k - 1], acts[k - 1])
              && clients[k] == Watched(clients[k - 1], games[k - 1], acts[k - 1], bursts[k - 1])
  {
    hide Valid, CanAct, EndsRound, Play, Watched;
    if k > 0 {
      assert Allowed(games[k - 1], acts[k - 1]);
    }
  }

  lemma StartAgrees(g: Game)
    requires g.world.grid.water == 0
    ensures Agrees(Client(g.world.grid, [], []), g)
  {
    var c := Client(g.world.grid, [], []);
    SameGrid(Restored(c), c.grid);
    SameGrid(Fill(Restored(c), Cells(c.destroyByServ), AIR), Restored(c));
  }
}
