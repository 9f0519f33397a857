/** The client's copy of the terrain: it simulates each shot by itself, then at the next round undoes
    its own damage and applies the server's (Client/src/partie.cpp, Server/src/game.cpp). */
module Replica {
  import opened Options
  import opened Terrain

  type Coords = c: seq<int> | |c| % 2 == 0 witness []

  /** The client's map, the cells its own simulation destroyed, and the server's last list. */
  datatype Client = Client(grid: Grid, blockDeleted: Coords, destroyByServ: Coords)

  /** The client's map with its own damage undone. */
  function Restored(c: Client): Grid {
    Fill(c.grid, Cells(c.blockDeleted), LIGHT_WALL)
  }

  /** An explosion of the client's own simulation, and addDeletedBlock. */
  function LocalBlast(c: Client, cx: int, cy: int, radius: int): Client {
    BlastIsPairs(c.grid, cx, cy, radius);
    c.(grid := Fill(c.grid, Crater(c.grid, cx, cy, radius), AIR),
       blockDeleted := c.blockDeleted + Blast(c.grid, cx, cy, radius))
  }

  lemma BlastIsPairs(g: Grid, cx: int, cy: int, radius: int)
    ensures |Blast(g, cx, cy, radius)| % 2 == 0
  {
    hide *;
    BlastMeaning(g, cx, cy, radius);
  }

  /** synchronizeMap followed by setWaterLevel, on a NEXT_ROUND message with the given level. */
  function NextRound(c: Client, level: nat): Client {
    var synchronized := Fill(Restored(c), Cells(c.destroyByServ), AIR);
    c.(grid := Flood(synchronized, level), blockDeleted := [])
  }

  /** Damage the client does to its own map is undone. */
  lemma LocalBlastUndone(c: Client, cx: int, cy: int, radius: int)
    ensures Restored(LocalBlast(c, cx, cy, radius)) == Restored(c)
  {
    var blast := Blast(c.grid, cx, cy, radius);
    BlastMeaning(c.grid, cx, cy, radius);
    CellsConcat(c.blockDeleted, blast);
    SameGrid(Restored(LocalBlast(c, cx, cy, radius)), Restored(c));
  }

  // ---------------------------------------------------------------- server, mailboxes and client

  /** The server's map, the shots the client has not looked at, the last NEXT_ROUND not yet processed, and
      whether a shot has been fired in the present round. */
  datatype System = System(server: Grid, shots: seq<Coords>, newRound: Option<nat>, client: Client, fired: bool)

  datatype Event =
    | ServerShot(coords: Coords)       // a shot was simulated and its destroyed cells were sent
    | ServerRound(rise: bool)          // end_round: the water may rise, then NEXT_ROUND is sent
    | ClientBlast(cx: int, cy: int, radius: int)
    | ClientShot                       // the client takes the shot's messages from its mailbox
    | ClientRound                      // the client processes NEXT_ROUND

  /** The code can take this step: shots are only taken if exactly one is waiting, and the row that
      the rising water clears must exist. */
  predicate Enabled(s: System, e: Event) {
    match e
    case ServerShot(_) => true
    case ServerRound(rise) => rise ==> s.server.water < s.server.height
    case ClientBlast(_, _, _) => true
    case ClientShot => |s.shots| == 1
    case ClientRound => s.newRound.Some?
  }

  function Step(s: System, e: Event): System
    requires Enabled(s, e)
  {
    match e
    case ServerShot(coords) => s.(server := Fill(s.server, Cells(coords), AIR), shots := s.shots + [coords], fired := true)
    case ServerRound(rise) =>
      var server := if rise then Flood(s.server, s.server.water + 1) else s.server;
      s.(server := server, newRound := Some(server.water), fired := false)
    case ClientBlast(cx, cy, radius) => s.(client := LocalBlast(s.client, cx, cy, radius))
    case ClientShot => s.(client := s.client.(destroyByServ := s.shots[0]), shots := [])
    case ClientRound => s.(client := NextRound(s.client, s.newRound.value), newRound := None)
  }

  /** There is one shot in a round; each round is processed before the next shot and before the next round
      end, a shot before its round. */
  predicate Paced(s: System, e: Event) {
    match e
    case ServerShot(_) => !s.fired && s.newRound.None?
    case ServerRound(_) => s.newRound.None?
    case ClientRound => s.shots == []
    case _ => true
  }

  /** The server's last list has already been applied to the client's map. */
  predicate Settled(c: Client) {
    Fill(Restored(c), Cells(c.destroyByServ), AIR) == Restored(c)
  }

  /** The top row of the water is AIR. */
  predicate Wet(g: Grid) {
    g.water <= g.height && (g.water > 0 ==> RowIsAir(g, g.height - g.water))
  }

  /** The list that separates the client's map from the server's. */
  function Outstanding(s: System): Coords
    requires |s.shots| <= 1
  {
    if s.shots == [] then s.client.destroyByServ else s.shots[0]
  }

  function BeforeRound(s: System): Grid
    requires |s.shots| <= 1
  {
    Fill(Restored(s.client), Cells(Outstanding(s)), AIR)
  }

  /** The server's map is the client's map with its own damage undone, the outstanding list applied,
      and the announced water level set. */
  ghost predicate InStep(s: System) {
    && |s.shots| <= 1
    && Wet(s.server) && Wet(Restored(s.client))
    && (s.shots != [] ==> (s.fired || s.newRound.Some?) && Settled(s.client))
    && (!s.fired && s.newRound.None? ==> Settled(s.client))
    && match s.newRound
       case None => s.server == BeforeRound(s)
       case Some(level) => level == s.server.water && s.server == Flood(BeforeRound(s), level)
  }

  lemma FloodAgain(g: Grid)
    requires Wet(g)
    ensures Flood(g, g.water) == g
  {
    SameGrid(Flood(g, g.water), g);
  }

  lemma WetAfterFill(g: Grid, pts: set<Cell>)
    requires Wet(g)
    ensures Wet(Fill(g, pts, AIR))
  {
  }

  lemma WetAfterFlood(g: Grid, level: nat)
    requires level <= g.height
    ensures Wet(Flood(g, level))
  {
  }

  /** Filling with AIR commutes with flooding. */
  lemma FloodFill(g: Grid, pts: set<Cell>, level: nat)
    ensures Flood(Fill(g, pts, AIR), level) == Fill(Flood(g, level), pts, AIR)
  {
    SameGrid(Flood(Fill(g, pts, AIR), level), Fill(Flood(g, level), pts, AIR));
  }

  /** What the client's map is just after it has processed a round. */
  lemma AfterRound(c: Client, level: nat)
    ensures var c' := NextRound(c, level);
            Restored(c') == c'.grid && Settled(c')
  {
    var c' := NextRound(c, level);
    SameGrid(Restored(c'), c'.grid);
    var pts := Cells(c.destroyByServ);
    FloodFill(Restored(c), pts, level);
    FillFill(Flood(Restored(c), level), pts, pts, AIR);
    assert pts + pts == pts;
  }

  lemma StepKeepsInStep(s: System, e: Event)
    requires InStep(s) && Enabled(s, e) && Paced(s, e)
    ensures InStep(Step(s, e))
    ensures e.ClientRound? ==> Step(s, e).client.grid == Step(s, e).server
  {
    hide Fill, Flood, Wet;
    match e {
      case ServerShot(coords) =>
        WetAfterFill(s.server, Cells(coords));
      case ServerRound(rise) =>
        FloodAgain(s.server);
        if rise {
          WetAfterFlood(s.server, s.server.water + 1);
        }
      case ClientBlast(cx, cy, radius) =>
        LocalBlastUndone(s.client, cx, cy, radius);
      case ClientShot =>
      case ClientRound =>
        AfterRound(s.client, s.newRound.value);
    }
  }

  // ---------------------------------------------------------------- whole runs

  /** A run of the system that starts with equal maps on both sides. */
  ghost predicate IsRun(states: seq<System>, events: seq<Event>) {
    && |states| == |events| + 1
    && (var s := states[0]; s.server == s.client.grid && s.client.blockDeleted == [] && s.client.destroyByServ == []
                            && s.shots == [] && s.newRound.None? && !s.fired && Wet(s.server))
    && forall k :: 0 <= k < |events| ==>
         Enabled(states[k], events[k]) && Paced(states[k], events[k]) && states[k + 1] == Step(states[k], events[k])
  }

  lemma {:induction false} RunInStep(states: seq<System>, events: seq<Event>, k: nat)
    requires IsRun(states, events) && k < |states|
    ensures InStep(states[k])
  {
    if k == 0 {
      SameGrid(Restored(states[0].client), states[0].server);
      SameGrid(BeforeRound(states[0]), states[0].server);
    } else {
      RunInStep(states, events, k - 1);
      StepKeepsInStep(states[k - 1], events[k - 1]);
    }
  }

  /** Replica agreement: whatever the client's own simulation destroyed, after every NEXT_ROUND step of
      every run its terrain and its water level are the server's. */
  lemma Agreement(states: seq<System>, events: seq<Event>, k: nat)
    requires IsRun(states, events) && k < |events| && events[k].ClientRound?
    ensures states[k + 1].client.grid == states[k + 1].server
  {
    RunInStep(states, events, k);
    StepKeepsInStep(states[k], events[k]);
  }

  // ---------------------------------------------------------------- out of pace

  /** How many of the rounds raise the water. */
  function Rising(rises: seq<bool>): nat {
    if rises == [] then 0 else Rising(rises[..|rises| - 1]) + if rises[|rises| - 1] then 1 else 0
  }

  /** Rounds the server ends while the client processes none of them. */
  function Missed(s: System, rises: seq<bool>): (r: System)
    requires s.server.water + Rising(rises) <= s.server.height
    ensures r.server.height == s.server.height && r.server.water == s.server.water + Rising(rises)
  {
    if rises == [] then s
    else Step(Missed(s, rises[..|rises| - 1]), ServerRound(rises[|rises| - 1]))
  }

  /** The map after the water has risen m times. */
  function Floods(g: Grid, m: nat): (r: Grid)
    ensures r.width == g.width && r.height == g.height && r.water == g.water + m
  {
    if m == 0 then g else Flood(Floods(g, m - 1), g.water + m)
  }

  lemma {:induction false} MissedFloods(s: System, rises: seq<bool>)
    requires s.server.water + Rising(rises) <= s.server.height
    ensures var r := Missed(s, rises);
            && r.server == Floods(s.server, Rising(rises)) && r.client == s.client
            && (rises != [] ==> r.newRound == Some(s.server.water + Rising(rises)))
  {
    hide Flood;
    if rises != [] {
      MissedFloods(s, rises[..|rises| - 1]);
    }
  }

  lemma {:induction false} FloodsAt(g: Grid, m: nat)
    requires g.water + m <= g.height
    ensures forall x, y :: 0 <= x < g.width && 0 <= y < g.height ==>
              Floods(g, m).cells[y][x] == if g.height - g.water - m <= y < g.height - g.water then AIR else g.cells[y][x]
  {
    hide Flood;
    if m > 0 {
      FloodsAt(g, m - 1);
    }
  }

  /** What a client in step sees if it processes only the last of several rounds. */
  lemma LateRound(s: System, rises: seq<bool>)
    requires rises != [] && s.server.water + Rising(rises) <= s.server.height
    requires s.client.grid == s.server && s.client.blockDeleted == [] && Settled(s.client)
    ensures var r := Missed(s, rises);
            Enabled(r, ClientRound) && Step(r, ClientRound).client.grid == Flood(s.server, r.server.water)
  {
    hide Fill, Flood, Missed;
    MissedFloods(s, rises);
    SameGrid(Restored(s.client), s.server);
  }

  /** A client that misses any number of rounds, and processes only the last one, agrees with the server
      afterwards exactly if the rows cleared by the missed rises were already free. */
  lemma MissedRoundsIff(s: System, rises: seq<bool>)
    requires rises != [] && s.server.water + Rising(rises) <= s.server.height && Wet(s.server)
    requires s.client.grid == s.server && s.client.blockDeleted == [] && Settled(s.client)
    ensures var r := Missed(s, rises);
            && Enabled(r, ClientRound)
            && (Step(r, ClientRound).client.grid == r.server <==>
                forall y :: s.server.height - r.server.water < y < s.server.height - s.server.water ==> RowIsAir(s.server, y))
  {
    hide *;
    MissedFloods(s, rises);
    LateRound(s, rises);
    OneFloodIff(s.server, Rising(rises));
  }

  /** One flood clears as much as m of them exactly if the rows in between are free. */
  lemma OneFloodIff(g: Grid, m: nat)
    requires g.water + m <= g.height && Wet(g)
    ensures Flood(g, g.water + m) == Floods(g, m) <==>
            forall y :: g.height - g.water - m < y < g.height - g.water ==> RowIsAir(g, y)
  {
    hide Flood, Floods;
    FloodsAt(g, m);
    var once, all := Flood(g, g.water + m), Floods(g, m);
    if forall y :: g.height - g.water - m < y < g.height - g.water ==> RowIsAir(g, y) {
      forall x, y | 0 <= x < g.width && 0 <= y < g.height
        ensures once.cells[y][x] == all.cells[y][x]
      {
        if g.height - g.water - m < y < g.height - g.water {
          assert RowIsAir(g, y);
        }
      }
      SameGrid(once, all);
    } else {
      var y :| g.height - g.water - m < y < g.height - g.water && !RowIsAir(g, y);
      var x :| 0 <= x < g.width && g.cells[y][x] != AIR;
      assert all.cells[y][x] == AIR && once.cells[y][x] != AIR;
    }
  }

  /** A client that processes NEXT_ROUND before the shot of the round agrees with the server exactly if
      every destroyed cell was already free, or lies in the row the new water level clears. */
  lemma EarlyRoundIff(s: System, level: nat)
    requires InStep(s) && |s.shots| == 1 && s.newRound == Some(level)
    ensures var early := Step(s, ClientRound);
            early.client.grid == early.server <==>
            forall p :: p in Cells(s.shots[0]) && Inside(s.server, p) ==>
                          Is(Restored(s.client), p.0, p.1, AIR) || (level > 0 && p.1 == s.server.height - level)
  {
    hide Fill, Flood;
    FloodedFillIff(Restored(s.client), Cells(s.shots[0]), level);
  }

  lemma FloodedFillIff(g: Grid, pts: set<Cell>, level: nat)
    ensures Flood(Fill(g, pts, AIR), level) == Flood(g, level) <==>
            forall p :: p in pts && Inside(g, p) ==> Is(g, p.0, p.1, AIR) || (level > 0 && p.1 == g.height - level)
  {
    hide Flood, Fill;
    var a, b := Flood(Fill(g, pts, AIR), level), Flood(g, level);
    if forall p :: p in pts && Inside(g, p) ==> Is(g, p.0, p.1, AIR) || (level > 0 && p.1 == g.height - level) {
      SameGrid(a, b);
    } else {
      var p :| p in pts && Inside(g, p) && !Is(g, p.0, p.1, AIR) && !(level > 0 && p.1 == g.height - level);
      assert a.cells[p.1][p.0] == AIR && b.cells[p.1][p.0] != AIR;
    }
  }

  // ---------------------------------------------------------------- the client's methods

  class ClientPartie {
    const carte: GameMap
    var blockDeleted: seq<int>
    var destroyByServ: Coords

    ghost predicate Valid()
      reads this, carte
    {
      carte.Valid() && |blockDeleted| % 2 == 0
    }

    function View(): Client
      requires Valid()
      reads this, carte
    {
      Client(carte.View(), blockDeleted, destroyByServ)
    }

    constructor (m: GameMap)
      requires m.Valid()
      ensures Valid() && View() == Client(m.View(), [], [])
    {
      carte, blockDeleted, destroyByServ := m, [], [];
    }

    method AddDeletedBlock(v: seq<int>)
      modifies this`blockDeleted
      ensures blockDeleted == old(blockDeleted) + v
    {
      var i := 0;
      while i < |v|
        invariant 0 <= i <= |v|
        invariant blockDeleted == old(blockDeleted) + v[..i]
      {
        blockDeleted := blockDeleted + [v[i]];
        i := i + 1;
      }
    }

    /** What deathMove and addDeletedBlock do for one explosion of the client's simulation. */
    method Explosion(cx: int, cy: int, radius: int)
      requires Valid()
      modifies this`blockDeleted, carte
      ensures Valid() && View() == LocalBlast(old(View()), cx, cy, radius)
    {
      hide Fill, Crater, Blast;
      BlastMeaning(carte.View(), cx, cy, radius);
      var destroyed := carte.Explose(cx, cy, radius);
      AddDeletedBlock(destroyed);
    }

    /** One of the two loops of synchronizeMap. */
    method SetAll(coords: Coords, kind: char)
      requires Valid()
      modifies carte
      ensures Valid() && carte.View() == Fill(old(carte.View()), Cells(coords), kind)
    {
      ghost var g := carte.View();
      SameGrid(g, Fill(g, Cells([]), kind));
      var i := 0;
      while i < |coords|
        invariant 0 <= i <= |coords| && i % 2 == 0 && Valid()
        invariant carte.View() == Fill(g, Cells(coords[..i]), kind)
      {
        var x, y := coords[i], coords[i + 1];
        carte.SetBloc(x, y, kind);
        assert coords[..i + 2] == coords[..i] + [x, y];
        CellsConcat(coords[..i], [x, y]);
        assert Cells([x, y]) == {(x, y)};
        FillFill(g, Cells(coords[..i]), {(x, y)}, kind);
        i := i + 2;
      }
      assert coords[..i] == coords;
    }

    /** The next-round step of run: synchronizeMap, blockDeleted.clear, setWaterLevel. */
    method NextRoundStep(level: nat)
      requires Valid() && level <= carte.height
      modifies this`blockDeleted, carte
      ensures Valid() && View() == NextRound(old(View()), level)
    {
      SetAll(blockDeleted, LIGHT_WALL);
      SetAll(destroyByServ, AIR);
      blockDeleted := [];
      carte.SetWaterLevel(level);
    }
  }
}
