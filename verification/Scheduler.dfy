/** Who plays next (Server/src/in_game_player.cpp, Game::nb_alive_teams and Game::end_round in
    Server/src/game.cpp), on values: a set of living worm ids stands for the simulated world. */
module Scheduler {
  import opened Cyclic
  import opened Rotation

  /** A Joueur: team 0 is a spectator; nbr is the number of worms the player joined with. */
  datatype Player = Player(team: nat, worms: seq<nat>, nbr: nat, current: nat) {
    predicate Valid() {
      team <= 4 && |worms| == 8 && nbr <= 8 && current < 8
    }
  }

  predicate SlotAlive(p: Player, alive: set<nat>, j: nat) {
    j < |p.worms| && p.worms[j] in alive
  }

  /** The slots below nb that hold a living worm. */
  function LiveSlots(p: Player, alive: set<nat>, nb: nat): (r: set<nat>)
    ensures forall j: nat :: j in r <==> j < nb && SlotAlive(p, alive, j)
  {
    set j: nat | j < nb && SlotAlive(p, alive, j)
  }

  /** is_still_alive. */
  predicate StillAlive(p: Player, alive: set<nat>) {
    exists j :: 0 <= j < p.nbr && SlotAlive(p, alive, j)
  }

  // ---------------------------------------------------------------- getNextLombricId

  /** The first k' >= k, at most p.nbr, for which slot (current + k') modulo nb is alive; else nbr + 1. */
  function SearchFrom(p: Player, alive: set<nat>, nb: nat, k: nat): (r: nat)
    requires nb > 0
    decreases p.nbr + 1 - k
  {
    if k > p.nbr then p.nbr + 1
    else if SlotAlive(p, alive, (k + p.current) % nb) then k
    else SearchFrom(p, alive, nb, k + 1)
  }

  /** getNextLombricId: the player's next state and the id found, or 0. */
  function GetNext(p: Player, alive: set<nat>, nb: nat): (r: (Player, nat))
    requires p.Valid() && 0 < nb <= 8
  {
    var k := SearchFrom(p, alive, nb, 1);
    if k > p.nbr then (p, 0)
    else
      var slot := (k + p.current) % nb;
      (p.(current := slot), p.worms[slot])
  }

  /** The slot k steps after the current one, and whether it holds a living worm. */
  function SlotAt(p: Player, nb: nat, k: nat): (i: nat)
    requires 0 < nb
    ensures i < nb
  {
    Wrap(nb, p.current + k)
  }

  predicate AliveAt(p: Player, alive: set<nat>, nb: nat, k: nat)
    requires 0 < nb
  {
    SlotAlive(p, alive, SlotAt(p, nb, k))
  }

  lemma {:induction false} SearchIs(p: Player, alive: set<nat>, nb: nat, k: nat)
    requires 0 < nb && 1 <= k <= p.nbr + 1
    ensures var r := SearchFrom(p, alive, nb, k);
            k <= r <= p.nbr + 1 && (r <= p.nbr ==> AliveAt(p, alive, nb, r))
    ensures forall j: nat :: k <= j < SearchFrom(p, alive, nb, k) ==> !AliveAt(p, alive, nb, j)
    decreases p.nbr + 1 - k
  {
    hide SlotAlive;
    WrapIsModulo(nb, p.current + k);
    if k <= p.nbr && !SlotAlive(p, alive, (k + p.current) % nb) {
      SearchIs(p, alive, nb, k + 1);
    }
  }

  /** The k-th slot after the current one is the first living one, and near enough to be looked at. */
  predicate FirstAlive(p: Player, alive: set<nat>, nb: nat, k: nat)
    requires 0 < nb
  {
    1 <= k <= p.nbr && AliveAt(p, alive, nb, k) && forall j: nat :: 1 <= j < k ==> !AliveAt(p, alive, nb, j)
  }

  lemma SearchFinds(p: Player, alive: set<nat>, nb: nat)
    requires p.Valid() && 0 < nb <= 8
    ensures var k := SearchFrom(p, alive, nb, 1);
            if k <= p.nbr then
              && FirstAlive(p, alive, nb, k)
              && GetNext(p, alive, nb) == (p.(current := SlotAt(p, nb, k)), p.worms[SlotAt(p, nb, k)])
            else GetNext(p, alive, nb) == (p, 0) && forall j: nat :: 1 <= j <= p.nbr ==> !AliveAt(p, alive, nb, j)
  {
    var k := SearchFrom(p, alive, nb, 1);
    SearchIs(p, alive, nb, 1);
    hide SlotAlive, SearchFrom;
    WrapIsModulo(nb, p.current + k);
  }

  /** The next worm is the first living one in cyclic order after the last, if it is among the nbr next ones;
      its id may be 0. With at least as many worms to look at as there are slots, and if no living worm has
      the id 0, an id of 0 means that none of the slots holds a living worm. */
  lemma GetNextMeaning(p: Player, alive: set<nat>, nb: nat)
    requires p.Valid() && 0 < nb <= 8
    ensures var (p', id) := GetNext(p, alive, nb);
            if exists k: nat :: FirstAlive(p, alive, nb, k) then
              exists k: nat :: FirstAlive(p, alive, nb, k) && p' == p.(current := SlotAt(p, nb, k)) && id == p.worms[p'.current]
            else p' == p && id == 0
    ensures nb <= p.nbr && 0 !in alive ==>
              var live := LiveSlots(p, alive, nb);
              var (p', id) := GetNext(p, alive, nb);
              && (id != 0 <==> Any(live, nb))
              && (id == 0 ==> p' == p)
              && (id != 0 ==> id in alive && p' == p.(current := Next(live, nb, p.current)) && p.worms[p'.current] == id)
  {
    hide GetNext, Next, SlotAlive, Any;
    SearchFinds(p, alive, nb);
    if nb <= p.nbr && 0 !in alive {
      GetNextInRotation(p, alive, nb);
    }
  }

  lemma GetNextInRotation(p: Player, alive: set<nat>, nb: nat)
    requires p.Valid() && 0 < nb <= p.nbr && nb <= 8 && 0 !in alive
    ensures var live := LiveSlots(p, alive, nb);
            var (p', id) := GetNext(p, alive, nb);
            && (id != 0 <==> Any(live, nb))
            && (id == 0 ==> p' == p)
            && (id != 0 ==> id in alive && p' == p.(current := Next(live, nb, p.current)) && p.worms[p'.current] == id)
  {
    hide SearchFrom, Next;
    var live := LiveSlots(p, alive, nb);
    var k := SearchFrom(p, alive, nb, 1);
    SearchFinds(p, alive, nb);
    assert forall v: nat :: p.current < v ==> AliveAt(p, alive, nb, v - p.current) == Eligible(live, nb, v);
    if k <= p.nbr {
      NextIs(live, nb, p.current, p.current + k);
    } else if Any(live, nb) {
      AnyReachable(live, nb, p.current);
    }
  }

  // ---------------------------------------------------------------- teams

  /** The distinct teams, spectators left out, of the players who still have a worm. */
  function AliveTeams(players: seq<Player>, alive: set<nat>): set<nat> {
    set i | 0 <= i < |players| && players[i].team != 0 && StillAlive(players[i], alive) :: players[i].team
  }

  // ---------------------------------------------------------------- the do..while loop of end_round

  datatype Table = Table(players: seq<Player>, cur: nat, nb: nat) {
    predicate Valid() {
      && 0 < |players| < 256 && cur < |players|
      && 0 < nb <= 8
      && forall i :: 0 <= i < |players| ==> players[i].Valid()
    }
  }

  /** get_next_lombric_id for the player at index i. */
  function NextOf(players: seq<Player>, i: nat, alive: set<nat>, nb: nat): (Player, nat)
    requires i < |players| && players[i].Valid() && 0 < nb <= 8
  {
    if players[i].team == 0 then (players[i], 0) else GetNext(players[i], alive, nb)
  }

  /** The players for whom get_next_lombric_id finds a worm. */
  function Ready(t: Table, alive: set<nat>): (r: set<nat>)
    requires t.Valid()
    ensures forall i: nat :: i in r <==> i < |t.players| && NextOf(t.players, i, alive, t.nb).1 != 0
  {
    set i: nat | i < |t.players| && NextOf(t.players, i, alive, t.nb).1 != 0
  }

  /** The loop leaves the table like this. */
  ghost function TakeTurn(t: Table, alive: set<nat>): (r: Table)
    requires t.Valid() && Any(Ready(t, alive), |t.players|)
  {
    var i := Next(Ready(t, alive), |t.players|, t.cur);
    t.(players := t.players[i := NextOf(t.players, i, alive, t.nb).0], cur := i)
  }

  /** Every player looks at all worms a player may have, and living worms sit in the slots looked at. */
  predicate Seated(t: Table, alive: set<nat>) {
    forall i :: 0 <= i < |t.players| ==>
      t.nb <= t.players[i].nbr && forall j :: t.nb <= j < 8 ==> !SlotAlive(t.players[i], alive, j)
  }

  /** Then the loop finds exactly the players who are no spectators and still have a worm. */
  lemma ReadyMeaning(t: Table, alive: set<nat>)
    requires t.Valid() && Seated(t, alive) && 0 !in alive
    ensures forall i :: 0 <= i < |t.players| ==>
              (i in Ready(t, alive) <==> t.players[i].team != 0 && StillAlive(t.players[i], alive))
  {
    forall i | 0 <= i < |t.players|
      ensures i in Ready(t, alive) <==> t.players[i].team != 0 && StillAlive(t.players[i], alive)
    {
      var p := t.players[i];
      GetNextMeaning(p, alive, t.nb);
      var live := LiveSlots(p, alive, t.nb);
      if StillAlive(p, alive) {
        var j :| 0 <= j < p.nbr && SlotAlive(p, alive, j);
        assert j < t.nb;
        assert j in live;
      }
      if Any(live, t.nb) {
        var j :| j in live && j < t.nb;
        assert SlotAlive(p, alive, j);
      }
    }
  }

  /** With a team alive the loop finds a player. */
  lemma TeamIsReady(t: Table, alive: set<nat>)
    requires t.Valid() && Seated(t, alive) && 0 !in alive
    ensures AliveTeams(t.players, alive) != {} <==> Any(Ready(t, alive), |t.players|)
  {
    ReadyMeaning(t, alive);
    if AliveTeams(t.players, alive) != {} {
      var team :| team in AliveTeams(t.players, alive);
      var i :| 0 <= i < |t.players| && t.players[i].team != 0 && StillAlive(t.players[i], alive);
      assert i in Ready(t, alive);
    }
    if Any(Ready(t, alive), |t.players|) {
      var i :| i in Ready(t, alive) && i < |t.players|;
      assert t.players[i].team in AliveTeams(t.players, alive);
    }
  }
}
