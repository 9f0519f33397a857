/** The spawning constructor of a sprite (sharedFiles/src/sprite.cpp), with its random draws as a list. */
module Spawn {
  import opened Options
  import opened Terrain
  import opened Arena
  import opened Settling
  import GameRun

  /** Every row under water is AIR. */
  predicate Drained(g: Grid) {
    g.water <= g.height && forall x, y :: 0 <= x < g.width && g.height - g.water <= y < g.height ==> g.cells[y][x] == AIR
  }

  /** Where a worm can stand: AIR, with something other than AIR just below, above the kill row. */
  predicate Ground(g: Grid, x: int, y: int) {
    Is(g, x, y, AIR) && y + 1 < g.height && !Is(g, x, y + 1, AIR) && !Drowned(g, y)
  }

  /** A column of AIR from row top down to a place where a worm can stand. */
  predicate AbovePlace(g: Grid, x: int, top: int, bottom: int) {
    top <= bottom && Ground(g, x, bottom) && forall y :: top <= y <= bottom ==> Is(g, x, y, AIR)
  }

  /** The place a draw leads to: the drawn cell for a sprite that can fly, otherwise the first one below it
      where a worm can stand. */
  ghost predicate PlaceOf(g: Grid, canFly: bool, draw: (nat, nat), place: Cell)
    requires g.width > 0 && g.height > 0
  {
    var x, y := draw.0 % g.width, draw.1 % g.height;
    && GoodDraw(g, draw)
    && place.0 == x
    && if canFly then place.1 == y
       else AbovePlace(g, x, y, place.1) && forall k :: y <= k < place.1 ==> !Ground(g, x, k)
  }

  /** Draws pairs of random numbers until one leads to a good place; None when the draws run out. */
  method SpawnPlace(carte: GameMap, canFly: bool, draws: seq<(nat, nat)>) returns (place: Option<Cell>)
    requires carte.Valid() && carte.width > 0 && carte.height > 0 && Drained(carte.View())
    ensures place.None? <==> forall i :: 0 <= i < |draws| ==> !GoodDraw(carte.View(), draws[i])
    ensures place.Some? ==> exists i ::
              && 0 <= i < |draws| && PlaceOf(carte.View(), canFly, draws[i], place.value)
              && forall k :: 0 <= k < i ==> !GoodDraw(carte.View(), draws[k])
  {
    place := None;
    var i := 0;
    while place.None? && i < |draws|
      invariant 0 <= i <= |draws|
      invariant place.None? ==> forall k :: 0 <= k < i ==> !GoodDraw(carte.View(), draws[k])
      invariant place.Some? ==> 0 < i && PlaceOf(carte.View(), canFly, draws[i - 1], place.value)
      invariant place.Some? ==> forall k :: 0 <= k < i - 1 ==> !GoodDraw(carte.View(), draws[k])
      decreases |draws| - i
    {
      var x, y := draws[i].0 % carte.width, draws[i].1 % carte.height;
      var saveY := y;
      var run := true;
      if Is(carte.View(), x, y, AIR) {
        while run && y < carte.height - 1 && y < carte.height - carte.waterLevel
          invariant saveY <= y < carte.height
          invariant forall k :: saveY <= k <= y ==> Is(carte.View(), x, k, AIR)
          invariant !run ==> AbovePlace(carte.View(), x, saveY, y)
          decreases carte.height - y, run
        {
          if !Is(carte.View(), x, y + 1, AIR) {
            AboveKillRow(carte.View(), x, y);
            run := false;
          } else {
            y := y + 1;
          }
        }
        if !run {
          assert AbovePlace(carte.View(), draws[i].0 % carte.width, draws[i].1 % carte.height, y);
          place := Some((x, if canFly then saveY else y));
        } else {
          NoGroundBelow(carte.View(), x, saveY, y);
        }
      }
      i := i + 1;
    }
  }

  /** A draw that leads to a place. */
  ghost predicate GoodDraw(g: Grid, draw: (nat, nat))
  {
    g.width > 0 && g.height > 0 && exists bottom :: AbovePlace(g, draw.0 % g.width, draw.1 % g.height, bottom)
  }

  /** On a drained map the first cell with ground below it is above the kill row. */
  lemma AboveKillRow(g: Grid, x: int, y: int)
    requires Drained(g) && Is(g, x, y, AIR) && y + 1 < g.height && !Is(g, x, y + 1, AIR)
    ensures Ground(g, x, y)
  {
    assert y + 1 < g.height - g.water;
  }

  /** A column of AIR down to the water, or to the bottom of the map, holds no place. */
  lemma NoGroundBelow(g: Grid, x: int, top: int, y: int)
    requires Drained(g) && 0 <= x < g.width && 0 <= top <= y < g.height
    requires forall k :: top <= k <= y ==> Is(g, x, k, AIR)
    requires y >= g.height - 1 || y >= g.height - g.water
    ensures forall bottom :: !AbovePlace(g, x, top, bottom)
  {
    forall bottom | top <= bottom
      ensures !Ground(g, x, bottom)
    {
      if bottom + 1 <= y {
        assert Is(g, x, bottom + 1, AIR);
      } else if bottom + 1 < g.height {
        assert g.cells[bottom + 1][x] == AIR;
      }
    }
  }

  /** Explosions and rising water keep the map drained. */
  lemma DrainedKept(g: Grid, pts: set<Cell>)
    requires Drained(g)
    ensures Drained(Fill(g, pts, AIR))
    ensures g.water < g.height ==> Drained(Flood(g, g.water + 1))
  {
  }

  /** Throughout a game every row under water stays AIR, so places can be looked for at any time. */
  lemma {:induction false} GamesStayDrained(games: seq<GameRun.Game>, acts: seq<GameRun.Act>, k: nat)
    requires GameRun.IsGame(games, acts) && k <= |acts|
    ensures Drained(games[k].world.grid)
  {
    DryIsDrained(games[0].world.grid);
    hide Drained, GameRun.Valid, GameRun.Play, GameRun.Allowed;
    if k > 0 {
      GamesStayDrained(games, acts, k - 1);
      PlayStaysDrained(games[k - 1], acts[k - 1]);
    }
  }

  lemma DryIsDrained(g: Grid)
    requires g.water == 0
    ensures Drained(g)
  {
  }

  lemma PlayStaysDrained(g: GameRun.Game, act: GameRun.Act)
    requires GameRun.Allowed(g, act) && Drained(g.world.grid)
    ensures Drained(GameRun.Play(g, act).world.grid)
  {
    hide *;
    GameRun.PlayIs(g, act);
    var acted := GameRun.Acted(g, act);
    ActErodes(g, acted);
    ErodedStaysDrained(g.world.grid, acted.grid);
    if GameRun.EndsRound(g, act) {
      RoundStaysDrained(g.(world := acted), act.timeUp, act.box);
    }
  }

  lemma ActErodes(g: GameRun.Game, w: World)
    requires GameRun.Kept(g, w)
    ensures Erodes(g.world.grid, w.grid) && w.grid.water == g.world.grid.water
  {
  }

  lemma RoundStaysDrained(g: GameRun.Game, timeUp: bool, box: Option<Body>)
    requires GameRun.Valid(g) && !g.over && GameRun.RoundReturns(g, timeUp)
    requires GameRun.BoxFits(GameRun.RoundWorld(g.world, timeUp).grid, box)
    requires Drained(g.world.grid)
    ensures Drained(GameRun.EndRound(g, timeUp, box).world.grid)
  {
    hide *;
    WaterBelowTop(g);
    GameRun.EndRoundMeaning(g, timeUp, box);
    DrainedKept(g.world.grid, {});
  }

  lemma WaterBelowTop(g: GameRun.Game)
    requires GameRun.Valid(g) && !g.over
    ensures g.world.grid.water < g.world.grid.height
  {
  }

  lemma ErodedStaysDrained(a: Grid, b: Grid)
    requires Drained(a) && Erodes(a, b) && b.water == a.water
    ensures Drained(b)
  {
    forall x, y | 0 <= x < b.width && b.height - b.water <= y < b.height
      ensures b.cells[y][x] == AIR
    {
      assert Is(a, x, y, AIR);
    }
  }

  /** A worm placed by the constructor can take part in an update. */
  lemma PlacedWormFits(g: Grid, id: nat, x: int, y: int, life: int, maxLife: int, t: int)
    requires Ground(g, x, y) && life <= maxLife
    ensures Fit(g, Body(id, Lombric(maxLife), x, y, None, life), t) && OnAir(g, Body(id, Lombric(maxLife), x, y, None, life))
  {
  }
}
