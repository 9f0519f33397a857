/** The turns of a whole game whose players joined with at least as many worms as there are slots: players,
    and each player's worms, take turns in rotation (Server/src/game.cpp, Server/src/in_game_player.cpp). */
module GameTurns {
  import opened Options
  import opened Arena
  import opened Turns
  import opened Rotation
  import opened Scheduler
  import opened Search
  import opened Fairness
  import opened GameRun

  /** Players look at all slots, only worms in these slots live, and no worm has the id 0. */
  ghost predicate Orderly(g: Game) {
    Seated(g.table, AliveIds(g.world.bodies)) && Named(g.world.bodies)
  }

  lemma NamedLive(bodies: seq<Body>)
    requires Named(bodies)
    ensures 0 !in AliveIds(bodies) && Living(bodies) == AliveIds(bodies)
  {
  }

  // ---------------------------------------------------------------- rounds

  /** The end of a round with two teams left is a turn of the schedule. */
  lemma OrderlyTurn(t: Table, many: set<nat>, alive: set<nat>)
    requires t.Valid() && Seated(t, many) && alive <= many && 0 !in alive
    ensures TurnReturns(t, alive) && Seated(t, alive)
    ensures |AliveTeams(t.players, alive)| > 1 ==>
              && Any(Ready(t, alive), |t.players|)
              && LoopResult(t, alive).0 == TakeTurn(t, alive) && TakeTurn(t, alive).Valid() && Seated(TakeTurn(t, alive), alive)
  {
    hide LoopEnds, LoopResult, Ready, TakeTurn, Seated, AliveTeams;
    SeatedLater(t, t, many, alive);
    TeamIsReady(t, alive);
    PlainLoop(t, alive);
    if |AliveTeams(t.players, alive)| > 1 {
      assert AliveTeams(t.players, alive) != {};
      ResultIsToPlay(t, alive);
      TurnKeepsPlayers(t, alive);
      SeatedLater(t, TakeTurn(t, alive), alive, alive);
    }
  }

  /** In such games every end of a round returns; it takes the next turn, or ends the game. */
  lemma OrderlyRound(g: Game, timeUp: bool, box: Option<Body>)
    requires Valid(g) && !g.over && Orderly(g) && BoxFits(RoundWorld(g.world, timeUp).grid, box)
    ensures RoundReturns(g, timeUp)
    ensures var g' := EndRound(g, timeUp, box);
            && Named(g'.world.bodies)
            && (!g'.over ==>
                  var alive := AliveIds(g'.world.bodies);
                  && g.table.Valid() && g'.table.Valid() && Any(Ready(g.table, alive), |g.table.players|)
                  && g'.table == TakeTurn(g.table, alive) && alive <= AliveIds(g.world.bodies)
                  && 0 !in alive && Seated(g'.table, alive) && g'.current == WormToPlay(g'.table))
  {
    hide RoundWorld, TakeTurn, Ready, Seated, AliveTeams, AliveIds, Living, BoxFits, Playable, AllAlive, Named, LoopEnds, LoopResult, Any, EndWith;
    RoundWorldMeaning(g.world, timeUp);
    var w := RoundWorld(g.world, timeUp);
    LivingShrinks(g.world, w) by {
      PlayableAtRest(g.world);
      PlayableAtRest(w);
    }
    NamedLive(g.world.bodies);
    NamedLive(w.bodies);
    OrderlyTurn(g.table, AliveIds(g.world.bodies), AliveIds(w.bodies));
    EndRoundMeaning(g, timeUp, box);
    EndWithTurns(g, w, box);
  }

  lemma PlayableAtRest(w: Arena.World)
    requires Playable(w)
    ensures AtRest(w)
  {
  }

  lemma EndWithTurns(g: Game, w: Arena.World, box: Option<Body>)
    requires g.table.Valid() && TurnReturns(g.table, AliveIds(w.bodies))
    ensures var g' := EndWith(g, w, box);
            !g'.over ==> |AliveTeams(g.table.players, AliveIds(w.bodies))| > 1 && g'.table == LoopResult(g.table, AliveIds(w.bodies)).0
  {
    hide LoopEnds, LoopResult, AliveIds, AliveTeams;
  }

  /** What an act that does not end the game does to the schedule. */
  lemma OrderlyPlay(g: Game, act: Act)
    requires Allowed(g, act) && Orderly(g) && !Play(g, act).over
    ensures Valid(g) && CanAct(g, act)
    ensures var g' := Play(g, act);
            var alive := AliveIds(g'.world.bodies);
            && Orderly(g') && alive <= AliveIds(g.world.bodies)
            && (!EndsRound(g, act) ==> g'.table == g.table)
            && (EndsRound(g, act) ==>
                  && g.table.Valid() && g'.table.Valid() && 0 !in alive && Any(Ready(g.table, alive), |g.table.players|)
                  && g'.table == TakeTurn(g.table, alive) && g'.current == WormToPlay(g'.table))
  {
    hide *;
    PlayIs(g, act);
    var w := Acted(g, act);
    KeptOrderly(g, w);
    if EndsRound(g, act) {
      OrderlyRound(g.(world := w), act.timeUp, act.box);
      OrderlyIs(Play(g, act));
    }
  }

  lemma OrderlyIs(g: Game)
    ensures Orderly(g) <==> Seated(g.table, AliveIds(g.world.bodies)) && Named(g.world.bodies)
  {
    hide Seated, Named, AliveIds;
  }

  lemma KeptOrderly(g: Game, w: Arena.World)
    requires Orderly(g) && Kept(g, w)
    ensures Orderly(g.(world := w)) && AliveIds(w.bodies) <= AliveIds(g.world.bodies)
  {
    hide Valid, Seated;
    NamedLive(g.world.bodies);
    NamedLive(w.bodies);
    SeatedLater(g.table, g.table, AliveIds(g.world.bodies), AliveIds(w.bodies));
  }

  // ---------------------------------------------------------------- the schedule of a game

  /** A game that starts orderly. */
  ghost predicate IsOrderlyGame(games: seq<Game>, acts: seq<Act>) {
    IsGame(games, acts) && Orderly(games[0])
  }

  /** The number of rounds among the first k acts: the number of the turn that is being played. */
  ghost function TurnNumber(games: seq<Game>, acts: seq<Act>, k: nat): nat
    requires IsGame(games, acts) && k <= |acts|
  {
    if k == 0 then 0 else TurnNumber(games, acts, k - 1) + if EndsRound(games[k - 1], acts[k - 1]) then 1 else 0
  }

  /** A turn begins. */
  ghost predicate Begins(games: seq<Game>, acts: seq<Act>, k: nat)
    requires IsGame(games, acts) && k <= |acts|
  {
    k == 0 || EndsRound(games[k - 1], acts[k - 1])
  }

  /** The turn played at time m is entered in the schedule, with the worms alive at its beginning. */
  ghost predicate Entered(games: seq<Game>, acts: seq<Act>, tables: seq<Table>, alives: seq<set<nat>>, m: nat)
    requires IsGame(games, acts) && m <= |acts| && |tables| == |alives|
  {
    var r := TurnNumber(games, acts, m);
    && r < |tables| && tables[r] == games[m].table && AliveIds(games[m].world.bodies) <= alives[r]
    && (Begins(games, acts, m) ==> alives[r] == AliveIds(games[m].world.bodies))
  }

  /** The tables of the turns of a game form a schedule. */
  lemma {:induction false} GameIsSchedule(games: seq<Game>, acts: seq<Act>, k: nat)
    returns (tables: seq<Table>, alives: seq<set<nat>>)
    requires IsOrderlyGame(games, acts) && k <= |acts| && !games[k].over
    ensures IsSchedule(tables, alives) && |tables| == |alives| == 1 + TurnNumber(games, acts, k) && Orderly(games[k])
    ensures forall m: nat :: m <= k ==> Entered(games, acts, tables, alives, m)
  {
    if k == 0 {
      tables, alives := ScheduleStart(games, acts);
    } else {
      hide IsSchedule, Entered, Orderly, TurnNumber, Allowed;
      NotYetOver(games, acts, k);
      var ts, vs := GameIsSchedule(games, acts, k - 1);
      tables, alives := MoreTurns(games, acts, k, ts, vs);
      forall m: nat | m <= k
        ensures Entered(games, acts, tables, alives, m)
      {
        if m < k {
          StillEntered(games, acts, ts, vs, tables, alives, m);
        }
      }
    }
  }

  lemma NotYetOver(games: seq<Game>, acts: seq<Act>, k: nat)
    requires IsGame(games, acts) && 0 < k <= |acts|
    ensures Allowed(games[k - 1], acts[k - 1]) && !games[k - 1].over && games[k] == Play(games[k - 1], acts[k - 1])
    ensures Valid(games[k - 1]) && CanAct(games[k - 1], acts[k - 1])
  {
    hide Valid, CanAct, EndsRound, Play;
    assert Allowed(games[k - 1], acts[k - 1]);
  }

  lemma ScheduleStart(games: seq<Game>, acts: seq<Act>) returns (tables: seq<Table>, alives: seq<set<nat>>)
    requires IsOrderlyGame(games, acts)
    ensures IsSchedule(tables, alives) && |tables| == |alives| == 1 && TurnNumber(games, acts, 0) == 0
    ensures Entered(games, acts, tables, alives, 0)
  {
    hide Allowed, Play;
    tables, alives := [games[0].table], [AliveIds(games[0].world.bodies)];
    NamedLive(games[0].world.bodies);
  }

  lemma StillEntered(games: seq<Game>, acts: seq<Act>, ts: seq<Table>, vs: seq<set<nat>>,
                     tables: seq<Table>, alives: seq<set<nat>>, m: nat)
    requires IsGame(games, acts) && m <= |acts| && |ts| == |vs| && |tables| == |alives|
    requires ts <= tables && vs <= alives && Entered(games, acts, ts, vs, m)
    ensures Entered(games, acts, tables, alives, m)
  {
    hide IsGame, AliveIds, TurnNumber, Begins;
  }

  /** One more act, which begins a turn if it ends its round. */
  lemma MoreTurns(games: seq<Game>, acts: seq<Act>, k: nat, ts: seq<Table>, vs: seq<set<nat>>)
    returns (tables: seq<Table>, alives: seq<set<nat>>)
    requires IsGame(games, acts) && 0 < k <= |acts| && !games[k].over && Orderly(games[k - 1])
    requires IsSchedule(ts, vs) && |ts| == |vs| == 1 + TurnNumber(games, acts, k - 1)
    requires Entered(games, acts, ts, vs, k - 1)
    ensures ts <= tables && vs <= alives && Orderly(games[k])
    ensures IsSchedule(tables, alives) && |tables| == |alives| == 1 + TurnNumber(games, acts, k)
    ensures Entered(games, acts, tables, alives, k)
  {
    hide IsSchedule, Orderly, Allowed, Play, EndsRound, AliveIds, TakeTurn, Ready, Any, Seated, Named;
    NotYetOver(games, acts, k);
    var g, act := games[k - 1], acts[k - 1];
    OrderlyPlay(g, act);
    var alive := AliveIds(games[k].world.bodies);
    tables, alives := ts, vs;
    if EndsRound(g, act) {
      SeatedAt(games[k]);
      Extend(ts, vs, games[k].table, alive);
      tables, alives := ts + [games[k].table], vs + [alive];
    }
  }

  lemma SeatedAt(g: Game)
    requires Orderly(g)
    ensures Seated(g.table, AliveIds(g.world.bodies))
  {
  }

  lemma Extend(tables: seq<Table>, alives: seq<set<nat>>, next: Table, alive: set<nat>)
    requires IsSchedule(tables, alives) && |tables| == |alives| > 0 && alive <= alives[|alives| - 1] && 0 !in alive
    requires var t := tables[|tables| - 1];
             t.Valid() && next.Valid() && Any(Ready(t, alive), |t.players|) && next == TakeTurn(t, alive) && Seated(next, alive)
    ensures IsSchedule(tables + [next], alives + [alive])
  {
    hide TakeTurn, Seated, Ready, Any;
    var more, sets := tables + [next], alives + [alive];
    forall i, j | 0 <= i <= j < |sets|
      ensures sets[j] <= sets[i]
    {
      if j == |alives| && i < j {
        assert alives[|alives| - 1] <= alives[i];
      }
    }
    assert forall k :: 0 <= k < |tables| ==> more[k] == tables[k] && sets[k] == alives[k];
  }

  // ---------------------------------------------------------------- times and turns

  lemma {:induction false} TurnsPass(games: seq<Game>, acts: seq<Act>, m: nat, n: nat)
    requires IsGame(games, acts) && m <= n <= |acts|
    ensures TurnNumber(games, acts, m) <= TurnNumber(games, acts, n)
    ensures m < n && Begins(games, acts, n) ==> TurnNumber(games, acts, m) < TurnNumber(games, acts, n)
    decreases n
  {
    hide Allowed, Play, EndsRound, Valid;
    if m < n {
      TurnsPass(games, acts, m, n - 1);
    }
  }

  /** When turn r began. */
  lemma {:induction false} BeginOf(games: seq<Game>, acts: seq<Act>, k: nat, r: nat) returns (m: nat)
    requires IsGame(games, acts) && k <= |acts| && r <= TurnNumber(games, acts, k)
    ensures m <= k && Begins(games, acts, m) && TurnNumber(games, acts, m) == r
    decreases k
  {
    hide Allowed, Play, EndsRound, Valid;
    if k == 0 {
      m := 0;
    } else if r <= TurnNumber(games, acts, k - 1) {
      m := BeginOf(games, acts, k - 1, r);
    } else {
      m := k;
    }
  }

  /** A turn between the numbers of two others begins between them. */
  lemma BeginBetween(games: seq<Game>, acts: seq<Act>, i: nat, j: nat, r: nat) returns (m: nat)
    requires IsGame(games, acts) && i <= j <= |acts|
    requires TurnNumber(games, acts, i) < r < TurnNumber(games, acts, j)
    ensures i < m < j && Begins(games, acts, m) && TurnNumber(games, acts, m) == r
  {
    hide TurnNumber, Begins, IsGame;
    m := BeginOf(games, acts, j, r);
    if m <= i {
      TurnsPass(games, acts, m, i);
    }
  }

  // ---------------------------------------------------------------- fairness

  /** Player p is at its turn at time m. */
  ghost predicate PlaysAt(games: seq<Game>, acts: seq<Act>, m: nat, p: nat)
    requires IsGame(games, acts) && m <= |acts|
  {
    Begins(games, acts, m) && games[m].table.cur == p
  }

  /** What the schedule says of time m. */
  lemma EnteredAt(games: seq<Game>, acts: seq<Act>, tables: seq<Table>, alives: seq<set<nat>>, m: nat, k: nat)
    requires IsGame(games, acts) && |tables| == |alives| && m <= k <= |acts|
    requires forall l: nat :: l <= k ==> Entered(games, acts, tables, alives, l)
    ensures var r := TurnNumber(games, acts, m);
            && r < |tables| && tables[r] == games[m].table
            && (Begins(games, acts, m) ==> alives[r] == AliveIds(games[m].world.bodies))
  {
    hide TurnNumber, Begins, IsGame, AliveIds;
    assert Entered(games, acts, tables, alives, m);
  }

  /** Between two consecutive turns of a player in a game, every other player who is no spectator and keeps a
      living worm has exactly one turn. */
  lemma GamePlayersTakeTurns(games: seq<Game>, acts: seq<Act>, i: nat, j: nat, q: nat) returns (k: nat)
    requires IsOrderlyGame(games, acts) && i < j <= |acts| && !games[j].over
    requires Begins(games, acts, i) && PlaysAt(games, acts, j, games[i].table.cur)
    requires forall l: nat :: i < l < j ==> !PlaysAt(games, acts, l, games[i].table.cur)
    requires q < |games[j].table.players| && q != games[i].table.cur
    requires games[j].table.players[q].team != 0 && StillAlive(games[j].table.players[q], AliveIds(games[j].world.bodies))
    ensures i < k < j && PlaysAt(games, acts, k, q)
    ensures forall l: nat :: i < l < j && PlaysAt(games, acts, l, q) ==> l == k
  {
    hide IsGame, IsSchedule, Entered, TurnNumber, Begins, AliveIds, StillAlive, Orderly;
    var tables, alives := GameIsSchedule(games, acts, j);
    var a, b := TurnNumber(games, acts, i), TurnNumber(games, acts, j);
    EnteredAt(games, acts, tables, alives, i, j);
    EnteredAt(games, acts, tables, alives, j, j);
    TurnsPass(games, acts, i, j);
    forall r | a < r < b
      ensures tables[r].cur != tables[a].cur
    {
      var l := BeginBetween(games, acts, i, j, r);
      EnteredAt(games, acts, tables, alives, l, j);
      assert !PlaysAt(games, acts, l, tables[a].cur);
    }
    var r := PlayersTakeTurns(tables, alives, a, b, q);
    k := BeginBetween(games, acts, i, j, r);
    EnteredAt(games, acts, tables, alives, k, j);
    forall l: nat | i < l < j && PlaysAt(games, acts, l, q)
      ensures l == k
    {
      EnteredAt(games, acts, tables, alives, l, j);
      TurnsPass(games, acts, i, l);
      TurnsPass(games, acts, l, j);
      OneTurnOneBegin(games, acts, k, l);
    }
  }

  lemma OneTurnOneBegin(games: seq<Game>, acts: seq<Act>, k: nat, l: nat)
    requires IsGame(games, acts) && k <= |acts| && l <= |acts| && Begins(games, acts, k) && Begins(games, acts, l)
    requires TurnNumber(games, acts, k) == TurnNumber(games, acts, l)
    ensures k == l
  {
    hide TurnNumber, Begins, IsGame;
    if k < l {
      TurnsPass(games, acts, k, l);
    } else if l < k {
      TurnsPass(games, acts, l, k);
    }
  }

  /** Player p uses the worm in the given slot at time m. */
  ghost predicate Uses(games: seq<Game>, acts: seq<Act>, m: nat, p: nat, slot: nat)
    requires IsGame(games, acts) && m <= |acts|
  {
    PlaysAt(games, acts, m, p) && p < |games[m].table.players| && games[m].table.players[p].current == slot
  }

  /** Between two consecutive uses of one worm of a player in a game, every other worm of that player that
      stays alive is used exactly once, and is the game's current worm then. */
  lemma GameWormsTakeTurns(games: seq<Game>, acts: seq<Act>, p: nat, i: nat, j: nat, used: nat, slot: nat) returns (k: nat)
    requires IsOrderlyGame(games, acts) && i < j <= |acts| && !games[j].over
    requires games[0].table.cur == p && p < |games[0].table.players| ==> games[0].table.players[p].current < games[0].table.nb
    requires Uses(games, acts, i, p, used) && Uses(games, acts, j, p, used)
    requires forall l: nat :: i < l < j ==> !Uses(games, acts, l, p, used)
    requires slot != used && slot in LiveSlots(games[j].table.players[p], AliveIds(games[j].world.bodies), games[j].table.nb)
    ensures i < k < j && Uses(games, acts, k, p, slot)
    ensures forall l: nat :: i < l < j && Uses(games, acts, l, p, slot) ==> l == k
    ensures games[k].table.Valid() && games[k].current == games[k].table.players[p].worms[slot]
  {
    hide IsGame, IsSchedule, Entered, TurnNumber, Begins, AliveIds, LiveSlots, Orderly;
    var tables, alives := GameIsSchedule(games, acts, j);
    var a, b := TurnNumber(games, acts, i), TurnNumber(games, acts, j);
    EnteredAt(games, acts, tables, alives, i, j);
    EnteredAt(games, acts, tables, alives, j, j);
    EnteredAt(games, acts, tables, alives, 0, j);
    TurnZero(games, acts);
    TurnsPass(games, acts, i, j);
    SameSeats(tables, alives, b);
    forall r | a < r < b && tables[r].cur == p && p < |tables[r].players|
      ensures tables[r].players[p].current != tables[a].players[p].current
    {
      var l := BeginBetween(games, acts, i, j, r);
      EnteredAt(games, acts, tables, alives, l, j);
      assert !Uses(games, acts, l, p, used);
    }
    var r := WormsTakeTurns(tables, alives, p, a, b, slot);
    k := BeginBetween(games, acts, i, j, r);
    EnteredAt(games, acts, tables, alives, k, j);
    forall l: nat | i < l < j && Uses(games, acts, l, p, slot)
      ensures l == k
    {
      EnteredAt(games, acts, tables, alives, l, j);
      TurnsPass(games, acts, i, l);
      TurnsPass(games, acts, l, j);
      OneTurnOneBegin(games, acts, k, l);
    }
    CurrentIsToPlay(games, acts, k, j);
  }

  lemma TurnZero(games: seq<Game>, acts: seq<Act>)
    requires IsGame(games, acts)
    ensures TurnNumber(games, acts, 0) == 0
  {
  }

  lemma SameSeats(tables: seq<Table>, alives: seq<set<nat>>, k: nat)
    requires IsSchedule(tables, alives) && k < |tables|
    ensures |tables[k].players| == |tables[0].players|
  {
    hide IsSchedule;
    SeatsStay(tables, alives, k);
  }

  /** At the beginning of every turn but the first the current worm is the one the schedule names. */
  lemma CurrentIsToPlay(games: seq<Game>, acts: seq<Act>, k: nat, j: nat)
    requires IsOrderlyGame(games, acts) && 0 < k <= j <= |acts| && !games[j].over && Begins(games, acts, k)
    ensures games[k].table.Valid() && games[k].current == WormToPlay(games[k].table)
  {
    hide Orderly, Allowed, Play, EndsRound, Valid, CanAct;
    StillOn(games, acts, k, j);
    NotYetOver(games, acts, k);
    var _, _ := GameIsSchedule(games, acts, k - 1);
    OrderlyPlay(games[k - 1], acts[k - 1]);
  }

  lemma {:induction false} StillOn(games: seq<Game>, acts: seq<Act>, k: nat, j: nat)
    requires IsGame(games, acts) && k <= j <= |acts| && !games[j].over
    ensures !games[k].over
    decreases j
  {
    hide Valid, CanAct, EndsRound, Play;
    if k < j {
      NotYetOver(games, acts, j);
      StillOn(games, acts, k, j - 1);
    }
  }
}
