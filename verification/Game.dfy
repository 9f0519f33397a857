/** The scheduler's objects: Joueur (Server/src/in_game_player.cpp) and Game (Server/src/game.cpp). */
module GameServ {
  import opened Options
  import opened Terrain
  import opened Arena
  import opened Quiescence
  import opened Turns
  import opened Scheduler
  import opened Search
  import opened GameRun
  import opened PartieServ

  /** isLombAlive, with the search of findById. */
  method IsLombAlive(partie: Partie, id: nat) returns (alive: bool)
    requires partie.Valid()
    ensures alive == (id in AliveIds(partie.View().bodies))
  {
    var i := 0;
    while i < |partie.sprites|
      invariant 0 <= i <= |partie.sprites|
      invariant forall k :: 0 <= k < i ==> partie.sprites[k].id != id
    {
      if partie.sprites[i].id == id {
        assert FindById(partie.View().bodies, id) == i;
        return partie.sprites[i].kind.Lombric? && partie.sprites[i].vie > 0;
      }
      i := i + 1;
    }
    return false;
  }

  class Joueur {
    const equipe: nat
    const lombrics: seq<nat>
    const nbrLomb: nat
    var currentLombric: nat

    predicate Valid()
      reads this
    {
      View().Valid()
    }

    function View(): Player
      reads this
    {
      Player(equipe, lombrics, nbrLomb, currentLombric)
    }

    constructor (p: Player)
      requires p.Valid()
      ensures Valid() && View() == p
    {
      equipe, lombrics, nbrLomb, currentLombric := p.team, p.worms, p.nbr, p.current;
    }

    method GetNextLombricId(partie: Partie, nbLomb: nat) returns (id: nat)
      requires Valid() && partie.Valid() && 0 < nbLomb <= 8
      modifies this`currentLombric
      ensures Valid()
      ensures (View(), id) == GetNext(old(View()), AliveIds(partie.View().bodies), nbLomb)
    {
      hide AliveIds, LombAlive, Views, SlotAlive, SearchFrom, GetNext;
      ghost var p, alive := View(), AliveIds(partie.View().bodies);
      SearchTurns(p, alive, nbLomb);
      var nextLomb := 1;
      while nextLomb <= nbrLomb
        invariant 1 <= nextLomb <= nbrLomb + 1 && View() == p
        invariant SearchFrom(p, alive, nbLomb, nextLomb) == SearchFrom(p, alive, nbLomb, 1)
      {
        var checked := (nextLomb + currentLombric) % nbLomb;
        SearchTurn(p, alive, nbLomb, nextLomb);
        var lives := IsLombAlive(partie, lombrics[checked]);
        if lives {
          currentLombric := checked;
          return lombrics[checked];
        }
        nextLomb := nextLomb + 1;
      }
      SearchTurn(p, alive, nbLomb, nextLomb);
      return 0;
    }

    method IsStillAlive(partie: Partie) returns (alive: bool)
      requires Valid() && partie.Valid()
      ensures alive == StillAlive(View(), AliveIds(partie.View().bodies))
    {
      hide AliveIds, LombAlive, Views;
      var j := 0;
      while j < nbrLomb
        invariant 0 <= j <= nbrLomb
        invariant forall k: nat :: k < j ==> !SlotAlive(View(), AliveIds(partie.View().bodies), k)
      {
        var lives := IsLombAlive(partie, lombrics[j]);
        if lives {
          assert SlotAlive(View(), AliveIds(partie.View().bodies), j);
          return true;
        }
        j := j + 1;
      }
      return false;
    }
  }

  /** One turn of the search of getNextLombricId. */
  lemma SearchTurn(p: Player, alive: set<nat>, nb: nat, k: nat)
    requires p.Valid() && 0 < nb <= 8
    ensures k > p.nbr ==> SearchFrom(p, alive, nb, k) == p.nbr + 1
    ensures k <= p.nbr ==>
              var slot := (k + p.current) % nb;
              && slot < nb
              && SearchFrom(p, alive, nb, k) == if p.worms[slot] in alive then k else SearchFrom(p, alive, nb, k + 1)
  {
  }

  lemma SearchTurns(p: Player, alive: set<nat>, nb: nat)
    requires p.Valid() && 0 < nb <= 8
    ensures var k := SearchFrom(p, alive, nb, 1);
            GetNext(p, alive, nb) ==
            if k > p.nbr then (p, 0)
            else (p.(current := (k + p.current) % nb), p.worms[(k + p.current) % nb])
  {
    hide SearchFrom;
  }

  function PlayersOf(joueurs: seq<Joueur>): (r: seq<Player>)
    reads joueurs
    ensures |r| == |joueurs| && forall i :: 0 <= i < |r| ==> r[i] == joueurs[i].View()
  {
    if joueurs == [] then [] else [joueurs[0].View()] + PlayersOf(joueurs[1..])
  }

  class Game {
    const partie: Partie
    const players: seq<Joueur>
    const lombNb: nat
    const aliveTeam: array<bool>
    var currentPlayerId: nat
    /** The id setCurrentLomb was last called with. */
    var currentLomb: nat
    var over: bool

    ghost predicate Valid()
      reads this, partie, partie.carte, partie.sprites, players
    {
      && partie.Valid() && aliveTeam.Length == 4
      && (forall i, j :: 0 <= i < j < |players| ==> players[i] != players[j])
      && View().Valid()
    }

    function View(): Table
      reads this, players
    {
      Table(PlayersOf(players), currentPlayerId, lombNb)
    }

    function Alive(): set<nat>
      requires partie.Valid()
      reads this, partie, partie.carte, partie.sprites
    {
      AliveIds(partie.View().bodies)
    }

    constructor (p: Partie, joueurs: seq<Joueur>, nb: nat)
      requires p.Valid() && (forall i, j :: 0 <= i < j < |joueurs| ==> joueurs[i] != joueurs[j])
      requires Table(PlayersOf(joueurs), 0, nb).Valid()
      ensures Valid() && View() == Table(PlayersOf(joueurs), 0, nb) && partie == p && !over && fresh(aliveTeam)
    {
      partie, players, lombNb, currentPlayerId, currentLomb, over := p, joueurs, nb, 0, 0, false;
      aliveTeam := new bool[4];
    }

    /** nb_alive_teams: each team is counted when its first living player is met. */
    method NbAliveTeams() returns (nbrTeams: nat)
      requires Valid()
      modifies aliveTeam
      ensures Valid()
      ensures nbrTeams == |AliveTeams(View().players, Alive())|
    {
      hide AliveIds, LombAlive, StillAlive, Views, PlayersOf, Counting;
      ghost var players', alive := View().players, Alive();
      var t := 0;
      while t < 4
        invariant 0 <= t <= 4
        invariant forall k :: 0 <= k < t ==> !aliveTeam[k]
      {
        aliveTeam[t] := false;
        t := t + 1;
      }
      nbrTeams := 0;
      CountingStart(players', alive, aliveTeam[..]);
      var index := 0;
      while index < |players|
        invariant 0 <= index <= |players| && View().players == players' && Alive() == alive
        invariant Counting(players', alive, index, aliveTeam[..], nbrTeams)
      {
        var team := players[index].equipe;
        assert players'[index] == players[index].View() && players'[index].Valid();
        CountingStep(players', alive, index, aliveTeam[..], nbrTeams);
        if team != 0 {
          var lives := players[index].IsStillAlive(partie);
          if lives && !aliveTeam[team - 1] {
            aliveTeam[team - 1] := true;
            nbrTeams := nbrTeams + 1;
          }
        }
        index := index + 1;
      }
      CountingEnd(players', alive, aliveTeam[..], nbrTeams);
    }

    /** get_next_lombric_id for the current player. */
    method GetNextLombricId() returns (id: nat)
      requires Valid()
      modifies players
      ensures Valid()
      ensures id == NextOf(old(View()).players, currentPlayerId, Alive(), lombNb).1
      ensures View().players == old(View()).players[currentPlayerId := NextOf(old(View()).players, currentPlayerId, Alive(), lombNb).0]
    {
      hide AliveIds, GetNext, Views, NextOf, SlotAlive, PlayersOf;
      var j := players[currentPlayerId];
      ghost var t, before := View(), PlayersOf(players);
      NextOfValid(t, Alive());
      assert before[currentPlayerId] == j.View();
      if j.equipe == 0 {
        id := 0;
      } else {
        id := j.GetNextLombricId(partie, lombNb);
      }
      OneChanged(before, currentPlayerId);
      assert View() == t.(players := t.players[t.cur := NextOf(t.players, t.cur, Alive(), t.nb).0]);
    }

    /** If only the player at index k differs from the given players, the players differ only there. */
    lemma OneChanged(before: seq<Player>, k: nat)
      requires |before| == |players| && k < |players|
      requires forall i :: 0 <= i < |players| && i != k ==> players[i].View() == before[i]
      ensures PlayersOf(players) == before[k := players[k].View()]
    {
    }

    /** One iteration of the do..while loop of end_round. */
    method TryNextPlayer() returns (id: nat)
      requires Valid()
      modifies this`currentPlayerId, players
      ensures Valid()
      ensures (View(), id) == TryNext(old(View()), Alive())
    {
      hide AliveIds, GetNext;
      currentPlayerId := currentPlayerId + 1;
      if currentPlayerId >= |players| {
        currentPlayerId := 0;
      }
      id := GetNextLombricId();
    }

    /** The do..while loop of end_round, from any table on which it ends. */
    method ChooseNext() returns (id: nat)
      requires Valid() && LoopEnds(View(), Alive())
      modifies this`currentPlayerId, players
      ensures Valid()
      ensures (View(), id) == LoopResult(old(View()), Alive()) && id != 0
    {
      hide AliveIds, TryNext, Tried, LoopEnds, PlayersOf, Views, Ends;
      ghost var t, alive := View(), Alive();
      ghost var last := LastTry(t, alive);
      ghost var n := 0;
      TriedNothing(t, alive);
      id := 0;
      while id == 0
        invariant Valid() && Alive() == alive && n <= last
        invariant id == 0 ==> View() == Tried(t, alive, n)
        invariant id != 0 ==> (View(), id) == TryNext(Tried(t, alive, last), alive)
        decreases last - n, id == 0
      {
        TriedStep(t, alive, n);
        id := TryNextPlayer();
        if id == 0 {
          n := n + 1;
        }
      }
    }

    /** The game as a value: its world, its players, and whose turn it is. */
    function AsGame(): GameRun.Game
      requires Valid()
      reads this, partie, partie.carte, partie.sprites, players
    {
      GameRun.Game(partie.View(), View(), currentLomb, over)
    }

    /** The first part of end_round: once the game's time has elapsed, the water rises. */
    method RiseWater(timeUp: bool)
      requires Valid() && GameRun.Valid(AsGame()) && !over
      modifies partie, partie.carte, partie.sprites
      ensures Valid() && AsGame() == old(AsGame()).(world := RoundWorld(old(AsGame()).world, timeUp))
      ensures Among(partie.sprites, old(partie.sprites))
    {
      RiseFitsRound(AsGame().world);
      hide Views, PlayersOf, Settle, Settles, Rise, RoundWorld, Flood;
      if timeUp {
        RiseAndSettle();
      }
    }

    method RiseAndSettle()
      requires Valid() && Settles(Rise(partie.View()), 0)
      requires partie.View().grid.water < partie.View().grid.height
      modifies partie, partie.carte, partie.sprites
      ensures Valid() && View() == old(View()) && partie.View() == Settle(Rise(old(partie.View())), 0)
      ensures currentLomb == old(currentLomb) && over == old(over)
      ensures Among(partie.sprites, old(partie.sprites))
    {
      hide Views, PlayersOf, Settle, Settles, Flood, Quiescent, Sound, Among, Passes, Rise;
      ghost var w := partie.View();
      RiseIs(w);
      partie.carte.IncreaseWaterLevel();
      assert partie.View() == Rise(w);
      partie.Update();
    }

    /** The rest of end_round: it ends the game, or begins the next turn, perhaps with a new health box. */
    method NextTurn(box: Sprite?)
      requires Valid() && TurnReturns(View(), Alive()) && !over
      requires box != null ==> box !in partie.sprites
      modifies this, players, partie, aliveTeam
      ensures Valid() && AsGame() == EndWith(old(AsGame()), old(AsGame()).world, old(BoxValue(box)))
    {
      hide AliveIds, Views, PlayersOf, AliveTeams, LombAlive, LoopEnds, LoopResult, EndWith, TurnReturns;
      ghost var g, added := AsGame(), BoxValue(box);
      NextTurnIs(g, added);
      var nbrTeams := NbAliveTeams();
      if nbrTeams <= 1 {
        over := true;
      } else {
        var id := ChooseNext();
        BeginTurn(id, box);
        assert partie.View() == WithBox(g.world.(turnOver := false), added);
      }
    }

    /** The world at the beginning of a turn. */
    method BeginTurn(id: nat, box: Sprite?)
      requires Valid() && (box != null ==> box !in partie.sprites)
      modifies this`currentLomb, partie
      ensures Valid() && currentLomb == id
      ensures partie.View() == WithBox(old(partie.View()).(turnOver := false), old(BoxValue(box)))
    {
      hide Views, PlayersOf;
      partie.SetCurrentLomb(id);
      currentLomb := id;
      if box != null {
        partie.AddHealthBox(box);
      }
    }

    /** end_round, if it returns; box is the health box that appears in the next round, if there is one. */
    method EndRound(timeUp: bool, box: Sprite?)
      requires Valid() && GameRun.Valid(AsGame()) && !over && RoundReturns(AsGame(), timeUp)
      requires box != null ==> box !in partie.sprites
      modifies this, players, partie, partie.carte, partie.sprites, aliveTeam
      ensures Valid() && AsGame() == GameRun.EndRound(old(AsGame()), timeUp, old(BoxValue(box)))
    {
      hide GameRun.Valid, GameRun.EndRound, RoundReturns, TurnReturns, AliveIds, Views, PlayersOf, RoundWorld, EndWith, Among;
      ghost var g, was, added := AsGame(), partie.sprites, BoxValue(box);
      EndRoundIs(g, timeUp, added);
      RiseWater(timeUp);
      assert View() == g.table && AsGame() == g.(world := RoundWorld(g.world, timeUp));
      if box != null {
        NotAmong(partie.sprites, was, box);
      }
      assert BoxValue(box) == added;
      NextTurn(box);
    }
  }

  lemma EndRoundIs(g: GameRun.Game, timeUp: bool, box: Option<Body>)
    requires GameRun.Valid(g) && !g.over && RoundReturns(g, timeUp)
    ensures Playable(g.world) && g.world.grid.water + 1 < g.world.grid.height
    ensures var w := RoundWorld(g.world, timeUp);
            && TurnReturns(g.table, AliveIds(w.bodies))
            && GameRun.EndRound(g, timeUp, box) == EndWith(g.(world := w), w, box)
  {
    hide AliveIds, RoundWorld, TurnReturns, AliveTeams, LoopResult;
  }

  lemma NextOfValid(t: Table, alive: set<nat>)
    requires t.Valid()
    ensures t.(players := t.players[t.cur := NextOf(t.players, t.cur, alive, t.nb).0]).Valid() && t.players[t.cur].Valid()
    ensures NextOf(t.players, t.cur, alive, t.nb)
         == if t.players[t.cur].team == 0 then (t.players[t.cur], 0) else GetNext(t.players[t.cur], alive, t.nb)
  {
    hide SlotAlive;
  }

  lemma NextTurnIs(g: GameRun.Game, box: Option<Body>)
    requires g.table.Valid() && TurnReturns(g.table, AliveIds(g.world.bodies))
    ensures var alive := AliveIds(g.world.bodies);
            if |AliveTeams(g.table.players, alive)| <= 1 then EndWith(g, g.world, box) == g.(over := true)
            else
              && LoopEnds(g.table, alive)
              && var (t, id) := LoopResult(g.table, alive);
                 EndWith(g, g.world, box) == GameRun.Game(WithBox(g.world.(turnOver := false), box), t, id, false)
  {
    hide AliveIds, AliveTeams, LoopEnds, LoopResult;
  }

  function BoxValue(box: Sprite?): Option<Body>
    reads box
  {
    if box == null then None else Some(box.View())
  }

  lemma RiseIs(w: World)
    ensures Rise(w) == w.(grid := Flood(w.grid, w.grid.water + 1))
  {
  }

  lemma RiseFitsRound(w: World)
    requires Playable(w) && w.grid.water + 1 < w.grid.height
    ensures Settles(Rise(w), 0) && RoundWorld(w, true) == Settle(Rise(w), 0) && RoundWorld(w, false) == w
    ensures Rise(w) == w.(grid := Flood(w.grid, w.grid.water + 1))
  {
    RiseFits(w);
  }

  /** The flags are those of the given teams. */
  predicate Marks(flags: seq<bool>, teams: set<nat>)
    requires |flags| == 4
  {
    forall i :: 0 <= i < 4 ==> (flags[i] <==> i + 1 in teams)
  }

  /** nb_alive_teams has looked at the first k players: flags marks the teams found, nbr counts them. */
  ghost predicate Counting(players: seq<Player>, alive: set<nat>, k: nat, flags: seq<bool>, nbr: nat) {
    && |flags| == 4 && k <= |players|
    && var teams := AliveTeams(players[..k], alive);
       && nbr == |teams|
       && Marks(flags, teams)
       && forall team :: team in teams ==> 1 <= team <= 4
  }

  lemma CountingStart(players: seq<Player>, alive: set<nat>, flags: seq<bool>)
    requires |flags| == 4 && forall i :: 0 <= i < 4 ==> !flags[i]
    ensures Counting(players, alive, 0, flags, 0)
  {
    assert AliveTeams(players[..0], alive) == {};
  }

  lemma CountingStep(players: seq<Player>, alive: set<nat>, k: nat, flags: seq<bool>, nbr: nat)
    requires Counting(players, alive, k, flags, nbr) && k < |players| && players[k].Valid()
    ensures var p := players[k];
            if p.team != 0 && StillAlive(p, alive) && !flags[p.team - 1]
            then Counting(players, alive, k + 1, flags[p.team - 1 := true], nbr + 1)
            else Counting(players, alive, k + 1, flags, nbr)
  {
    hide AliveTeams, StillAlive, SlotAlive;
    TeamsGrow(players, alive, k);
    var teams, team := AliveTeams(players[..k], alive), players[k].team;
    if team != 0 && StillAlive(players[k], alive) && !flags[team - 1] {
      NewTeam(teams, team, flags);
    } else if team != 0 && StillAlive(players[k], alive) {
      assert teams + {team} == teams;
    } else {
      assert teams + {} == teams;
    }
  }

  lemma NewTeam(teams: set<nat>, team: nat, flags: seq<bool>)
    requires |flags| == 4 && 1 <= team <= 4 && !flags[team - 1]
    requires Marks(flags, teams)
    ensures |teams + {team}| == |teams| + 1 && Marks(flags[team - 1 := true], teams + {team})
  {
    assert team !in teams;
  }

  lemma CountingEnd(players: seq<Player>, alive: set<nat>, flags: seq<bool>, nbr: nat)
    requires Counting(players, alive, |players|, flags, nbr)
    ensures nbr == |AliveTeams(players, alive)|
  {
    assert players[..|players|] == players;
  }

  /** One more player adds at most its own team to the teams alive. */
  lemma TeamsGrow(players: seq<Player>, alive: set<nat>, i: nat)
    requires i < |players|
    ensures AliveTeams(players[..i + 1], alive) ==
            AliveTeams(players[..i], alive)
            + (if players[i].team != 0 && StillAlive(players[i], alive) then {players[i].team} else {})
  {
    hide StillAlive;
    var more, fewer := AliveTeams(players[..i + 1], alive), AliveTeams(players[..i], alive);
    forall team | team in more
      ensures team in fewer || (players[i].team == team && team != 0 && StillAlive(players[i], alive))
    {
      var k :| 0 <= k < i + 1 && players[..i + 1][k].team == team && team != 0 && StillAlive(players[..i + 1][k], alive);
      if k < i {
        assert players[..i][k] == players[k];
      }
    }
    forall team | team in fewer
      ensures team in more
    {
      var k :| 0 <= k < i && players[..i][k].team == team && team != 0 && StillAlive(players[..i][k], alive);
      assert players[..i + 1][k] == players[..i][k];
    }
    assert players[..i + 1][i] == players[i];
  }
}
