/** Fairness of whole games without quits: players take turns in rotation, and so do each player's worms
    (Game::end_round in Server/src/game.cpp, Joueur::getNextLombricId in Server/src/in_game_player.cpp). */
module Fairness {
  import opened Rotation
  import opened Scheduler

  /** tables[k] is the table after the k-th turn, taken among the worms alive then; worms only die. */
  ghost predicate IsSchedule(tables: seq<Table>, alives: seq<set<nat>>) {
    && |tables| == |alives| > 0
    && (forall k :: 0 <= k < |tables| ==> tables[k].Valid() && Seated(tables[k], alives[k]) && 0 !in alives[k])
    && (forall i, j :: 0 <= i <= j < |alives| ==> alives[j] <= alives[i])
    && (forall k :: 1 <= k < |tables| ==>
          Any(Ready(tables[k - 1], alives[k]), |tables[k - 1].players|) && tables[k] == TakeTurn(tables[k - 1], alives[k]))
  }

  lemma ScheduledTurn(tables: seq<Table>, alives: seq<set<nat>>, k: nat)
    requires IsSchedule(tables, alives) && 1 <= k < |tables|
    ensures tables[k - 1].Valid() && tables[k].Valid() && |alives| == |tables|
    ensures Seated(tables[k - 1], alives[k - 1]) && alives[k] <= alives[k - 1] && 0 !in alives[k]
    ensures Any(Ready(tables[k - 1], alives[k]), |tables[k - 1].players|) && tables[k] == TakeTurn(tables[k - 1], alives[k])
  {
    hide Seated, Any, Ready, TakeTurn;
  }

  /** Everything about the players except their current worm. */
  predicate SamePlayers(a: Table, b: Table) {
    && a.nb == b.nb && |a.players| == |b.players|
    && forall i :: 0 <= i < |a.players| ==> a.players[i].(current := 0) == b.players[i].(current := 0)
  }

  lemma TurnKeepsPlayers(t: Table, alive: set<nat>)
    requires t.Valid() && Any(Ready(t, alive), |t.players|)
    ensures SamePlayers(t, TakeTurn(t, alive)) && TakeTurn(t, alive).cur in Ready(t, alive)
    ensures forall i :: 0 <= i < |t.players| && i != TakeTurn(t, alive).cur ==> TakeTurn(t, alive).players[i] == t.players[i]
  {
  }

  lemma {:induction false} ScheduleKeepsPlayers(tables: seq<Table>, alives: seq<set<nat>>, i: nat, j: nat)
    requires IsSchedule(tables, alives) && i <= j < |tables|
    ensures SamePlayers(tables[i], tables[j])
  {
    if i < j {
      ScheduleKeepsPlayers(tables, alives, i, j - 1);
      TurnKeepsPlayers(tables[j - 1], alives[j]);
    }
  }

  /** Fewer worms stay seated, and the players are seated independently of whose turn it is. */
  lemma SeatedLater(a: Table, b: Table, many: set<nat>, few: set<nat>)
    requires SamePlayers(a, b) && Seated(a, many) && few <= many
    ensures Seated(b, few)
  {
    forall i | 0 <= i < |b.players|
      ensures b.nb <= b.players[i].nbr
      ensures forall j :: b.nb <= j < 8 ==> !SlotAlive(b.players[i], few, j)
    {
      assert a.players[i].(current := 0) == b.players[i].(current := 0);
      assert forall j: nat :: SlotAlive(b.players[i], few, j) ==> SlotAlive(a.players[i], many, j);
    }
  }

  /** The players in the running: no spectators, and with a living worm. */
  function Running(t: Table, alive: set<nat>): set<nat> {
    set i: nat | i < |t.players| && t.players[i].team != 0 && StillAlive(t.players[i], alive)
  }

  lemma RunningIsReady(t: Table, alive: set<nat>)
    requires t.Valid() && Seated(t, alive) && 0 !in alive
    ensures Ready(t, alive) == Running(t, alive)
  {
    ReadyMeaning(t, alive);
  }

  lemma RunningShrinks(a: Table, b: Table, many: set<nat>, few: set<nat>)
    requires SamePlayers(a, b) && few <= many
    ensures Running(b, few) <= Running(a, many)
  {
    forall i | i in Running(b, few)
      ensures i in Running(a, many)
    {
      assert a.players[i].(current := 0) == b.players[i].(current := 0);
      var j :| 0 <= j < b.players[i].nbr && SlotAlive(b.players[i], few, j);
      assert SlotAlive(a.players[i], many, j);
    }
  }

  function Turns(tables: seq<Table>): (r: seq<nat>)
    ensures |r| == |tables| && forall k :: 0 <= k < |r| ==> r[k] == tables[k].cur
  {
    seq(|tables|, k requires 0 <= k < |tables| => tables[k].cur)
  }

  function Runnings(tables: seq<Table>, alives: seq<set<nat>>): (r: seq<set<nat>>)
    requires |tables| == |alives|
    ensures |r| == |tables| && forall k :: 0 <= k < |r| ==> r[k] == Running(tables[k], alives[k])
  {
    seq(|tables|, k requires 0 <= k < |tables| => Running(tables[k], alives[k]))
  }

  lemma ScheduleIsRun(tables: seq<Table>, alives: seq<set<nat>>)
    requires IsSchedule(tables, alives)
    ensures IsRun(|tables[0].players|, Turns(tables), Runnings(tables, alives))
    ensures Shrinking(Runnings(tables, alives))
  {
    assert |tables| == |alives| > 0;
    hide TakeTurn, Ready, Running, Next, Seated, SamePlayers, IsSchedule, Any;
    var n := |tables[0].players|;
    var turns, oks := Turns(tables), Runnings(tables, alives);
    forall k | 0 <= k < |tables|
      ensures |tables[k].players| == n && turns[k] < n
    {
      SeatsStay(tables, alives, k);
    }
    forall k | 1 <= k < |tables|
      ensures Any(oks[k], n) && turns[k] == Next(oks[k], n, turns[k - 1])
    {
      ScheduledTurn(tables, alives, k);
      OneTurn(tables[k - 1], tables[k], alives[k - 1], alives[k]);
    }
    forall i, j | 0 <= i <= j < |tables|
      ensures oks[j] <= oks[i]
    {
      RunningShrinksOver(tables, alives, i, j);
    }
  }

  lemma SeatsStay(tables: seq<Table>, alives: seq<set<nat>>, k: nat)
    requires IsSchedule(tables, alives) && k < |tables|
    ensures |tables[k].players| == |tables[0].players| > tables[k].cur && tables[k].nb == tables[0].nb > 0
  {
    hide TakeTurn, Ready, Seated, Any;
    ScheduleKeepsPlayers(tables, alives, 0, k);
  }

  lemma RunningShrinksOver(tables: seq<Table>, alives: seq<set<nat>>, i: nat, j: nat)
    requires IsSchedule(tables, alives) && i <= j < |tables|
    ensures Running(tables[j], alives[j]) <= Running(tables[i], alives[i])
  {
    hide TakeTurn, Ready, Running, Seated, Any, SamePlayers;
    ScheduleKeepsPlayers(tables, alives, i, j);
    RunningShrinks(tables[i], tables[j], alives[i], alives[j]);
  }

  /** One turn chooses the next player in the running. */
  lemma OneTurn(t: Table, t': Table, many: set<nat>, alive: set<nat>)
    requires t.Valid() && Seated(t, many) && alive <= many && 0 !in alive
    requires Any(Ready(t, alive), |t.players|) && t' == TakeTurn(t, alive)
    ensures Any(Running(t', alive), |t.players|) && t'.cur == Next(Running(t', alive), |t.players|, t.cur)
  {
    SeatedLater(t, t, many, alive);
    RunningIsReady(t, alive);
    TurnKeepsPlayers(t, alive);
    RunningShrinks(t, t', alive, alive);
    RunningShrinks(t', t, alive, alive);
    assert Running(t', alive) == Ready(t, alive);
  }

  /** Between two consecutive turns of a player, every other player who is no spectator and keeps a
      living worm has exactly one turn. */
  lemma PlayersTakeTurns(tables: seq<Table>, alives: seq<set<nat>>, i: nat, j: nat, q: nat) returns (k: nat)
    requires IsSchedule(tables, alives) && i < j < |tables|
    requires tables[i].cur == tables[j].cur && forall l :: i < l < j ==> tables[l].cur != tables[i].cur
    requires q < |tables[j].players| && q != tables[i].cur
    requires tables[j].players[q].team != 0 && StillAlive(tables[j].players[q], alives[j])
    ensures i < k < j && tables[k].cur == q
    ensures forall l :: i < l < j && tables[l].cur == q ==> l == k
  {
    ScheduleIsRun(tables, alives);
    ScheduleKeepsPlayers(tables, alives, 0, j);
    var turns := Turns(tables);
    assert forall l :: i < l < j ==> turns[l] != turns[i];
    k := Fair(|tables[0].players|, turns, Runnings(tables, alives), i, j, q);
    assert forall l :: i < l < j && tables[l].cur == q ==> turns[l] == q;
  }

  // ---------------------------------------------------------------- the worms of one player

  /** The times of the turns of player p, in order. */
  ghost predicate AreTurnsOf(tables: seq<Table>, p: nat, times: seq<nat>) {
    && (forall m :: 0 <= m < |times| ==> times[m] < |tables| && tables[times[m]].cur == p && p < |tables[times[m]].players|)
    && (forall m, m' :: 0 <= m < m' < |times| ==> times[m] < times[m'])
    && (forall l: nat :: l < |tables| && tables[l].cur == p ==> l in times)
  }

  lemma {:induction false} TurnsExist(tables: seq<Table>, p: nat) returns (times: seq<nat>)
    requires forall k :: 0 <= k < |tables| ==> p < |tables[k].players|
    ensures AreTurnsOf(tables, p, times)
  {
    if tables == [] {
      times := [];
    } else {
      var last := |tables| - 1;
      times := TurnsExist(tables[..last], p);
      if tables[last].cur == p {
        times := times + [last];
      }
    }
  }

  /** The slots player p used, and the slots that were alive, turn by turn. */
  ghost function Slots(tables: seq<Table>, p: nat, times: seq<nat>): (r: seq<nat>)
    requires AreTurnsOf(tables, p, times)
    ensures |r| == |times| && forall m :: 0 <= m < |r| ==> r[m] == tables[times[m]].players[p].current
  {
    seq(|times|, m requires 0 <= m < |times| => tables[times[m]].players[p].current)
  }

  ghost function Lives(tables: seq<Table>, alives: seq<set<nat>>, p: nat, times: seq<nat>): (r: seq<set<nat>>)
    requires |tables| == |alives| && AreTurnsOf(tables, p, times)
    ensures |r| == |times| && forall m :: 0 <= m < |r| ==> r[m] == LiveAt(tables, alives, p, times[m])
  {
    seq(|times|, m requires 0 <= m < |times| => LiveAt(tables, alives, p, times[m]))
  }

  function LiveAt(tables: seq<Table>, alives: seq<set<nat>>, p: nat, k: nat): set<nat>
    requires k < |tables| == |alives| && p < |tables[k].players|
  {
    LiveSlots(tables[k].players[p], alives[k], tables[k].nb)
  }

  /** A turn of p uses the next living worm after the one p used last. */
  lemma WormTurn(t: Table, t': Table, many: set<nat>, alive: set<nat>)
    requires t.Valid() && Seated(t, many) && alive <= many && 0 !in alive
    requires Any(Ready(t, alive), |t.players|) && t' == TakeTurn(t, alive)
    ensures t'.cur < |t'.players| && t'.nb == t.nb && |t'.players| == |t.players|
    ensures var p := t'.cur;
            var live := LiveSlots(t'.players[p], alive, t'.nb);
            Any(live, t'.nb) && t'.players[p].current == Next(live, t'.nb, t.players[p].current)
  {
    var p := t'.cur;
    SeatedLater(t, t, many, alive);
    TurnKeepsPlayers(t, alive);
    GetNextMeaning(t.players[p], alive, t.nb);
    hide GetNext, Next;
    assert LiveSlots(t'.players[p], alive, t.nb) == LiveSlots(t.players[p], alive, t.nb);
  }

  /** Between two turns of p without another one in between, the state of p does not change. */
  lemma {:induction false} Waiting(tables: seq<Table>, alives: seq<set<nat>>, p: nat, i: nat, k: nat)
    requires IsSchedule(tables, alives) && i <= k < |tables| && p < |tables[i].players|
    requires forall l :: i < l <= k ==> tables[l].cur != p
    ensures p < |tables[k].players| && tables[k].players[p] == tables[i].players[p]
  {
    hide TakeTurn, Ready, Any, Seated, SamePlayers;
    if i < k {
      Waiting(tables, alives, p, i, k - 1);
      TurnKeepsPlayers(tables[k - 1], alives[k]);
      TurnKeepsCount(tables[k - 1], alives[k]);
    }
  }

  lemma TurnKeepsCount(t: Table, alive: set<nat>)
    requires t.Valid() && Any(Ready(t, alive), |t.players|)
    ensures |TakeTurn(t, alive).players| == |t.players| && TakeTurn(t, alive).nb == t.nb
  {
  }

  /** Two turns of p without another one in between. */
  lemma WormIsNext(tables: seq<Table>, alives: seq<set<nat>>, p: nat, i: nat, k: nat)
    requires IsSchedule(tables, alives) && i < k < |tables| && p < |tables[i].players| && tables[k].cur == p
    requires forall l :: i < l < k ==> tables[l].cur != p
    ensures p < |tables[k].players| && tables[k].nb > 0
    ensures var live := LiveAt(tables, alives, p, k);
            Any(live, tables[k].nb) && tables[k].players[p].current == Next(live, tables[k].nb, tables[i].players[p].current)
  {
    hide TakeTurn, Next, Ready, Any, Seated, IsSchedule, LiveSlots;
    Waiting(tables, alives, p, i, k - 1);
    ScheduledTurn(tables, alives, k);
    WormTurn(tables[k - 1], tables[k], alives[k - 1], alives[k]);
  }

  lemma LivesShrink(a: Table, b: Table, many: set<nat>, few: set<nat>, p: nat)
    requires SamePlayers(a, b) && few <= many && p < |a.players|
    ensures LiveSlots(b.players[p], few, b.nb) <= LiveSlots(a.players[p], many, a.nb)
  {
    assert a.players[p].(current := 0) == b.players[p].(current := 0);
  }

  lemma WormsAreRun(tables: seq<Table>, alives: seq<set<nat>>, p: nat, times: seq<nat>)
    requires IsSchedule(tables, alives) && AreTurnsOf(tables, p, times)
    requires times != [] ==> tables[times[0]].players[p].current < tables[0].nb
    ensures IsRun(tables[0].nb, Slots(tables, p, times), Lives(tables, alives, p, times))
    ensures Shrinking(Lives(tables, alives, p, times))
  {
    var slots, lives, nb := Slots(tables, p, times), Lives(tables, alives, p, times), tables[0].nb;
    hide TakeTurn, Ready, Next, LiveSlots, LiveAt, Slots, Lives;
    forall m | 1 <= m < |times|
      ensures Any(lives[m], nb) && slots[m] == Next(lives[m], nb, slots[m - 1])
    {
      NoneBetween(tables, p, times, m);
      WormIsNext(tables, alives, p, times[m - 1], times[m]);
      ScheduleKeepsPlayers(tables, alives, 0, times[m]);
    }
    forall m | 0 <= m < |times|
      ensures slots[m] < nb
    {
      if m > 0 {
        assert Any(lives[m], nb) && slots[m] == Next(lives[m], nb, slots[m - 1]);
      }
    }
    forall a, b | 0 <= a <= b < |times|
      ensures lives[b] <= lives[a]
    {
      assert a < b ==> times[a] < times[b];
      ScheduleKeepsPlayers(tables, alives, times[a], times[b]);
      LivesShrinkAt(tables, alives, p, times[a], times[b]);
    }
  }

  lemma LivesShrinkAt(tables: seq<Table>, alives: seq<set<nat>>, p: nat, i: nat, j: nat)
    requires IsSchedule(tables, alives) && i <= j < |tables| && p < |tables[i].players| == |tables[j].players|
    ensures LiveAt(tables, alives, p, j) <= LiveAt(tables, alives, p, i)
  {
    ScheduleKeepsPlayers(tables, alives, i, j);
    LivesShrink(tables[i], tables[j], alives[i], alives[j], p);
  }

  lemma NoneBetween(tables: seq<Table>, p: nat, times: seq<nat>, m: nat)
    requires AreTurnsOf(tables, p, times) && 1 <= m < |times|
    ensures forall l :: times[m - 1] < l < times[m] ==> tables[l].cur != p
  {
    forall x | 0 <= x < |times|
      ensures x < m ==> times[x] <= times[m - 1]
      ensures x >= m ==> times[x] >= times[m]
    {
    }
  }

  /** Fairness of the turns of p, stated on the times of the whole game. */
  lemma FairTimes(tables: seq<Table>, p: nat, times: seq<nat>, nb: nat, slots: seq<nat>, lives: seq<set<nat>>,
                  i: nat, j: nat, slot: nat) returns (k: nat)
    requires forall l :: 0 <= l < |tables| ==> p < |tables[l].players|
    requires AreTurnsOf(tables, p, times) && |slots| == |times|
    requires forall m :: 0 <= m < |slots| ==> slots[m] == tables[times[m]].players[p].current
    requires IsRun(nb, slots, lives) && Shrinking(lives)
    requires i < j && i in times && j in times
    requires tables[i].players[p].current == tables[j].players[p].current
    requires forall l :: i < l < j && tables[l].cur == p ==> tables[l].players[p].current != tables[i].players[p].current
    requires slot != tables[i].players[p].current && slot < nb
    requires forall m :: 0 <= m < |times| && times[m] == j ==> slot in lives[m]
    ensures i < k < j && tables[k].cur == p && tables[k].players[p].current == slot
    ensures forall l :: i < l < j && tables[l].cur == p && tables[l].players[p].current == slot ==> l == k
  {
    hide IsRun, Shrinking, Next;
    var a :| 0 <= a < |times| && times[a] == i;
    var b :| 0 <= b < |times| && times[b] == j;
    assert forall m :: a < m < b ==> slots[m] != slots[a];
    var m := Fair(nb, slots, lives, a, b, slot);
    k := times[m];
    forall l: nat | i < l < j && tables[l].cur == p && tables[l].players[p].current == slot
      ensures l == k
    {
      var x :| 0 <= x < |times| && times[x] == l;
      assert a < x < b && slots[x] == slot;
    }
  }

  /** Between two consecutive uses of one worm of a player, every other worm of that player that stays
      alive is used exactly once. */
  lemma WormsTakeTurns(tables: seq<Table>, alives: seq<set<nat>>, p: nat, i: nat, j: nat, slot: nat) returns (k: nat)
    requires IsSchedule(tables, alives) && i < j < |tables| && p < |tables[0].players|
    requires tables[0].cur == p ==> tables[0].players[p].current < tables[0].nb
    requires tables[i].cur == p && tables[j].cur == p && p < |tables[i].players| && p < |tables[j].players|
    requires tables[i].players[p].current == tables[j].players[p].current
    requires forall l :: i < l < j && tables[l].cur == p && p < |tables[l].players| ==>
                           tables[l].players[p].current != tables[i].players[p].current
    requires slot != tables[i].players[p].current && slot in LiveAt(tables, alives, p, j)
    ensures i < k < j && tables[k].cur == p && p < |tables[k].players| && tables[k].players[p].current == slot
    ensures forall l :: i < l < j && tables[l].cur == p && p < |tables[l].players| && tables[l].players[p].current == slot ==> l == k
  {
    forall l | 0 <= l < |tables|
      ensures p < |tables[l].players|
    {
      ScheduleKeepsPlayers(tables, alives, 0, l);
    }
    ScheduleKeepsPlayers(tables, alives, 0, j);
    var times := TurnsExist(tables, p);
    FirstUse(tables, alives, p, times);
    WormsAreRun(tables, alives, p, times);
    var slots, lives := Slots(tables, p, times), Lives(tables, alives, p, times);
    assert slot < tables[0].nb;
    hide LiveSlots, LiveAt, Next, IsSchedule, Slots, Lives, IsRun, Shrinking;
    k := FairTimes(tables, p, times, tables[0].nb, slots, lives, i, j, slot);
  }

  /** The first turn of p in a game uses one of the first nb slots. */
  lemma FirstUse(tables: seq<Table>, alives: seq<set<nat>>, p: nat, times: seq<nat>)
    requires IsSchedule(tables, alives) && AreTurnsOf(tables, p, times)
    requires p < |tables[0].players| && (tables[0].cur == p ==> tables[0].players[p].current < tables[0].nb)
    ensures times != [] ==> tables[times[0]].players[p].current < tables[0].nb
  {
    if times != [] && times[0] > 0 {
      var k := times[0];
      hide TakeTurn, Next, Ready;
      WormTurn(tables[k - 1], tables[k], alives[k - 1], alives[k]);
      ScheduleKeepsPlayers(tables, alives, 0, k);
    }
  }
}
