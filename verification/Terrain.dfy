/** The destructible terrain and the rising water (sharedFiles/src/map.cpp). */
module Terrain {
  const AIR := ' '
  const LIGHT_WALL := '#'
  const SOLID_WALL := '='

  /** The value of a Map: its dimensions, its rows from top to bottom, and its water level. */
  datatype RawGrid = RawGrid(width: nat, height: nat, cells: seq<seq<char>>, water: nat) {
    ghost predicate Valid() {
      && height < 0x8000_0000
      && |cells| == height
      && forall y :: 0 <= y < height ==> |cells[y]| == width
    }
  }

  type Grid = g: RawGrid | g.Valid() witness RawGrid(0, 0, [], 0)

  type Cell = (int, int)

  predicate Inside(g: Grid, p: Cell) {
    0 <= p.0 < g.width && 0 <= p.1 < g.height
  }

  /** isTypeBloc: false outside the map. */
  predicate Is(g: Grid, x: int, y: int, kind: char) {
    0 <= x < g.width && 0 <= y < g.height && g.cells[y][x] == kind
  }

  /** The grid with every cell of pts that lies inside it set to kind. */
  function Fill(g: Grid, pts: set<Cell>, kind: char): (r: Grid)
    ensures r.width == g.width && r.height == g.height && r.water == g.water
    ensures forall x, y :: 0 <= x < g.width && 0 <= y < g.height ==>
                             r.cells[y][x] == if (x, y) in pts then kind else g.cells[y][x]
  {
    g.(cells := seq(g.height, y requires 0 <= y < g.height =>
      seq(g.width, x requires 0 <= x < g.width => if (x, y) in pts then kind else g.cells[y][x])))
  }

  function Row(g: Grid, y: int): (r: set<Cell>)
    ensures forall p :: p in r <==> Inside(g, p) && p.1 == y
  {
    set x | 0 <= x < g.width && 0 <= y < g.height :: (x, y)
  }

  predicate RowIsAir(g: Grid, y: int) {
    0 <= y < g.height && forall x :: 0 <= x < g.width ==> g.cells[y][x] == AIR
  }

  /** Two grids with the same cells are the same grid. */
  lemma SameGrid(a: Grid, b: Grid)
    requires a.width == b.width && a.height == b.height && a.water == b.water
    requires forall x, y :: 0 <= x < a.width && 0 <= y < a.height ==> a.cells[y][x] == b.cells[y][x]
    ensures a == b
  {
    forall y | 0 <= y < a.height
      ensures a.cells[y] == b.cells[y]
    {
    }
    assert a.cells == b.cells;
  }

  lemma FillFill(g: Grid, a: set<Cell>, b: set<Cell>, kind: char)
    ensures Fill(Fill(g, a, kind), b, kind) == Fill(g, a + b, kind)
  {
    SameGrid(Fill(Fill(g, a, kind), b, kind), Fill(g, a + b, kind));
  }

  /** Every AIR cell of a is an AIR cell of b: what the server's terrain does over time. */
  ghost predicate Erodes(a: Grid, b: Grid) {
    && a.width == b.width && a.height == b.height
    && forall x, y {:trigger Is(a, x, y, AIR)} {:trigger Is(b, x, y, AIR)} :: Is(a, x, y, AIR) ==> Is(b, x, y, AIR)
  }

  /** setWaterLevel and increaseWaterLevel: the level changes and the new top row of water becomes AIR. */
  function Flood(g: Grid, level: nat): (r: Grid)
    ensures r.width == g.width && r.height == g.height && r.water == level
    ensures Erodes(g, r)
    ensures 0 < level <= g.height ==> RowIsAir(r, g.height - level)
    ensures forall x, y :: 0 <= x < g.width && 0 <= y < g.height ==>
                             r.cells[y][x] == if level > 0 && y == g.height - level then AIR else g.cells[y][x]
  {
    var f := if level > 0 then Fill(g, Row(g, g.height - level), AIR) else g;
    f.(water := level)
  }

  /** Setting the level first and clearing the row afterwards is the same. */
  lemma FloodAfterLevel(g: Grid, risen: Grid)
    requires risen == g.(water := risen.water)
    ensures Flood(g, risen.water) == if risen.water > 0 then Fill(risen, Row(risen, risen.height - risen.water), AIR) else risen
  {
    if risen.water > 0 {
      assert Row(g, g.height - risen.water) == Row(risen, risen.height - risen.water);
      SameGrid(Flood(g, risen.water), Fill(risen, Row(risen, risen.height - risen.water), AIR));
    }
  }

  // ---------------------------------------------------------------- explosions

  /** The integer part of the square root. */
  function FloorSqrt(n: nat): (r: nat)
    ensures r * r <= n < (r + 1) * (r + 1)
  {
    if n == 0 then 0
    else
      var s := FloorSqrt(n - 1);
      if (s + 1) * (s + 1) <= n then s + 1 else s
  }

  /** The smallest integer that is at least the square root. */
  function CeilSqrt(n: nat): (r: nat)
    ensures n <= r * r
    ensures r > 0 ==> (r - 1) * (r - 1) < n
  {
    var s := FloorSqrt(n);
    if s * s == n then s else s + 1
  }

  /** center - sqrt(chord) converted to int, which truncates toward zero. */
  function FirstRow(center: int, chord: nat): int {
    if center >= CeilSqrt(chord) then center - CeilSqrt(chord) else center - FloorSqrt(chord)
  }

  /** The largest integer that is at most center + sqrt(chord). */
  function LastRow(center: int, chord: nat): int {
    center + FloorSqrt(chord)
  }

  function Chord(radius: int, dx: int): int {
    radius * radius - dx * dx
  }

  predicate InDisc(cx: int, cy: int, radius: int, p: Cell) {
    (p.0 - cx) * (p.0 - cx) + (p.1 - cy) * (p.1 - cy) <= radius * radius
  }

  /** The cell just above the top of the disc in a column whose top row is not a whole number. */
  predicate JustAbove(cx: int, cy: int, radius: int, p: Cell) {
    && p.1 < cy
    && (p.0 - cx) * (p.0 - cx) + (cy - 1 - p.1) * (cy - 1 - p.1) < radius * radius
    && !InDisc(cx, cy, radius, p)
  }

  /** The cells an explosion destroys: the breakable ones of the disc and of the row just above it. */
  function Crater(g: Grid, cx: int, cy: int, radius: int): set<Cell> {
    set x, y | 0 <= x < g.width && 0 <= y < g.height && g.cells[y][x] == LIGHT_WALL && radius >= 0
               && (InDisc(cx, cy, radius, (x, y)) || JustAbove(cx, cy, radius, (x, y))) :: (x, y)
  }

  /** The destroyed cells of one column, from row y to row last, as consecutive x and y coordinates. */
  function ColumnCoords(g: Grid, x: int, y: int, last: int): seq<int>
    decreases last - y
  {
    if y > last then []
    else (if Is(g, x, y, LIGHT_WALL) then [x, y] else []) + ColumnCoords(g, x, y + 1, last)
  }

  /** The destroyed cells of columns x and up, in the order explose visits them. */
  function BlastCoords(g: Grid, cx: int, cy: int, radius: int, x: int): seq<int>
    requires cx - radius <= x
    decreases cx + radius + 1 - x
  {
    if x > cx + radius then []
    else
      ChordFits(radius, x - cx);
      ColumnCoords(g, x, FirstRow(cy, Chord(radius, x - cx)), LastRow(cy, Chord(radius, x - cx)))
      + BlastCoords(g, cx, cy, radius, x + 1)
  }

  lemma ChordFits(radius: int, dx: int)
    requires -radius <= dx <= radius
    ensures Chord(radius, dx) >= 0
  {
    assert (radius - dx) * (radius + dx) >= 0;
  }

  /** The cells named by a list of consecutive coordinates. */
  function Cells(coords: seq<int>): set<Cell>
    requires |coords| % 2 == 0
  {
    if coords == [] then {} else {(coords[0], coords[1])} + Cells(coords[2..])
  }

  /** Each cell of the list is named once. */
  ghost predicate Once(coords: seq<int>)
    requires |coords| % 2 == 0
  {
    coords == [] || ((coords[0], coords[1]) !in Cells(coords[2..]) && Once(coords[2..]))
  }

  lemma {:induction false} CellsConcat(a: seq<int>, b: seq<int>)
    requires |a| % 2 == 0 && |b| % 2 == 0
    ensures |a + b| % 2 == 0
    ensures Cells(a + b) == Cells(a) + Cells(b)
    ensures Once(a) && Once(b) && Cells(a) !! Cells(b) ==> Once(a + b)
  {
    if a == [] {
      assert a + b == b;
    } else {
      assert (a + b)[2..] == a[2..] + b;
      CellsConcat(a[2..], b);
    }
  }

  lemma {:induction false} ColumnCells(g: Grid, x: int, y: int, last: int)
    ensures |ColumnCoords(g, x, y, last)| % 2 == 0
    ensures forall p :: p in Cells(ColumnCoords(g, x, y, last)) <==>
                          p.0 == x && y <= p.1 <= last && Is(g, p.0, p.1, LIGHT_WALL)
    ensures Once(ColumnCoords(g, x, y, last))
    decreases last - y
  {
    if y <= last {
      ColumnCells(g, x, y + 1, last);
      if Is(g, x, y, LIGHT_WALL) {
        assert ([x, y] + ColumnCoords(g, x, y + 1, last))[2..] == ColumnCoords(g, x, y + 1, last);
      } else {
        assert [] + ColumnCoords(g, x, y + 1, last) == ColumnCoords(g, x, y + 1, last);
      }
    }
  }

  lemma SquareLess(a: nat, b: nat)
    ensures a * a < b * b <==> a < b
    ensures a * a <= b * b <==> a <= b
  {
    if a < b {
      assert a * a <= a * b <= b * b && (b - a) * b > 0;
    } else if b < a {
      assert b * b <= b * a <= a * a && (a - b) * a > 0;
    }
  }

  function Square(n: int): int {
    n * n
  }

  lemma SquareOrder(a: int, b: int)
    requires a >= 0 && b >= 0
    ensures Square(a) < Square(b) <==> a < b
    ensures Square(a) <= Square(b) <==> a <= b
    ensures Square(-a) == Square(a)
  {
    SquareLess(a, b);
  }

  /** The rows from the truncated square root up to the other one, for a squared half chord d. */
  lemma RowsOfChord(cy: int, y: int, d: nat, low: nat, high: nat)
    requires Square(low) <= d < Square(low + 1) && d <= Square(high) && (high > 0 ==> Square(high - 1) < d)
    requires 0 <= y
    ensures (if cy >= high then cy - high else cy - low) <= y <= cy + low <==>
            Square(y - cy) <= d || (y < cy && Square(cy - 1 - y) < d && Square(y - cy) > d)
  {
    hide Square;
    var k := if y >= cy then y - cy else cy - y;
    SquareOrder(k, low);
    SquareOrder(low + 1, k);
    SquareOrder(high, k);
    SquareOrder(low, high);
    SquareOrder(high, low + 1);
    if y < cy {
      SquareOrder(k - 1, high);
      SquareOrder(k - 1, low);
      SquareOrder(low + 1, k - 1);
      if high > 0 {
        SquareOrder(high - 1, k - 1);
        SquareOrder(high - 1, k);
      }
    }
  }

  lemma RootsOf(d: nat)
    ensures var low, high := FloorSqrt(d), CeilSqrt(d);
            Square(low) <= d < Square(low + 1) && d <= Square(high) && (high > 0 ==> Square(high - 1) < d)
  {
  }

  lemma DiscByRows(cx: int, cy: int, radius: int, x: int, y: int)
    ensures InDisc(cx, cy, radius, (x, y)) <==> Square(y - cy) <= Chord(radius, x - cx)
    ensures JustAbove(cx, cy, radius, (x, y)) <==>
            y < cy && Square(cy - 1 - y) < Chord(radius, x - cx) && Square(y - cy) > Chord(radius, x - cx)
  {
  }

  /** Inside the map, the rows explose visits in one column are those of the disc, and the one just above it. */
  lemma RowsMeaning(cx: int, cy: int, radius: int, x: int, y: int)
    requires -radius <= x - cx <= radius
    requires 0 <= y
    ensures Chord(radius, x - cx) >= 0
    ensures FirstRow(cy, Chord(radius, x - cx)) <= y <= LastRow(cy, Chord(radius, x - cx)) <==>
            InDisc(cx, cy, radius, (x, y)) || JustAbove(cx, cy, radius, (x, y))
  {
    hide Square, InDisc, JustAbove, Chord, FloorSqrt, CeilSqrt;
    ChordFits(radius, x - cx);
    var d := Chord(radius, x - cx);
    RootsOf(d);
    DiscByRows(cx, cy, radius, x, y);
    RowsOfChord(cy, y, d, FloorSqrt(d), CeilSqrt(d));
  }

  /** One column of the crater. */
  lemma ColumnOfCrater(g: Grid, cx: int, cy: int, radius: int, x: int)
    requires -radius <= x - cx <= radius
    ensures Chord(radius, x - cx) >= 0
    ensures var coords := ColumnCoords(g, x, FirstRow(cy, Chord(radius, x - cx)), LastRow(cy, Chord(radius, x - cx)));
            && |coords| % 2 == 0 && Once(coords)
            && forall p :: p in Cells(coords) <==> p in Crater(g, cx, cy, radius) && p.0 == x
  {
    ChordFits(radius, x - cx);
    var first, last := FirstRow(cy, Chord(radius, x - cx)), LastRow(cy, Chord(radius, x - cx));
    ColumnCells(g, x, first, last);
    forall p: Cell
      ensures p in Cells(ColumnCoords(g, x, first, last)) <==> p in Crater(g, cx, cy, radius) && p.0 == x
    {
      if p.0 == x && Is(g, p.0, p.1, LIGHT_WALL) {
        RowsMeaning(cx, cy, radius, x, p.1);
      }
    }
  }

  /** The crater lies in the columns explose visits. */
  lemma CraterWidth(g: Grid, cx: int, cy: int, radius: int, p: Cell)
    requires p in Crater(g, cx, cy, radius)
    ensures -radius <= p.0 - cx <= radius
  {
    if InDisc(cx, cy, radius, p) {
      LegIsShorter(p.0 - cx, p.1 - cy, radius);
    } else {
      LegIsShorter(p.0 - cx, cy - 1 - p.1, radius);
    }
  }

  lemma LegIsShorter(a: int, b: int, r: int)
    requires r >= 0 && a * a + b * b <= r * r
    ensures -r <= a <= r
  {
    var leg := if a < 0 then -a else a;
    assert b * b >= 0 && leg * leg == a * a;
    SquareLess(leg, r);
  }

  /** The list explose returns names exactly the cells it destroys, each once. */
  lemma {:induction false} BlastCells(g: Grid, cx: int, cy: int, radius: int, x: int)
    requires cx - radius <= x
    ensures |BlastCoords(g, cx, cy, radius, x)| % 2 == 0
    ensures forall p :: p in Cells(BlastCoords(g, cx, cy, radius, x)) <==>
                          p in Crater(g, cx, cy, radius) && p.0 >= x
    ensures Once(BlastCoords(g, cx, cy, radius, x))
    decreases cx + radius + 1 - x
  {
    if x > cx + radius {
      forall p | p in Crater(g, cx, cy, radius)
        ensures p.0 < x
      {
        CraterWidth(g, cx, cy, radius, p);
      }
    } else {
      ColumnOfCrater(g, cx, cy, radius, x);
      BlastCells(g, cx, cy, radius, x + 1);
      CellsConcat(ColumnCoords(g, x, FirstRow(cy, Chord(radius, x - cx)), LastRow(cy, Chord(radius, x - cx))),
                  BlastCoords(g, cx, cy, radius, x + 1));
    }
  }

  /** An explosion breaks every breakable cell of the disc, keeps every other kind of cell, and
      reaches beyond the disc by at most the one row above it. */
  lemma CraterMeaning(g: Grid, cx: int, cy: int, radius: int, p: Cell)
    requires radius >= 0 && Inside(g, p)
    ensures p in Crater(g, cx, cy, radius) ==> Is(g, p.0, p.1, LIGHT_WALL)
    ensures InDisc(cx, cy, radius, p) && Is(g, p.0, p.1, LIGHT_WALL) ==> p in Crater(g, cx, cy, radius)
    ensures p in Crater(g, cx, cy, radius) && !InDisc(cx, cy, radius, p) ==>
              p.1 < cy && InDisc(cx, cy, radius, (p.0, p.1 + 1))
  {
    assert (p.1 + 1 - cy) * (p.1 + 1 - cy) == (cy - 1 - p.1) * (cy - 1 - p.1);
  }

  /** What explose returns. */
  function Blast(g: Grid, cx: int, cy: int, radius: int): seq<int> {
    if radius < 0 then [] else BlastCoords(g, cx, cy, radius, cx - radius)
  }

  lemma BlastMeaning(g: Grid, cx: int, cy: int, radius: int)
    ensures |Blast(g, cx, cy, radius)| % 2 == 0
    ensures Cells(Blast(g, cx, cy, radius)) == Crater(g, cx, cy, radius)
    ensures Once(Blast(g, cx, cy, radius))
  {
    if radius >= 0 {
      BlastCells(g, cx, cy, radius, cx - radius);
      forall p | p in Crater(g, cx, cy, radius)
        ensures p.0 >= cx - radius
      {
        CraterWidth(g, cx, cy, radius, p);
      }
    }
  }

  /** A column looks the same in two grids that agree on it. */
  lemma {:induction false} SameColumn(a: Grid, b: Grid, x: int, y: int, last: int)
    requires a.width == b.width && a.height == b.height
    requires forall k :: 0 <= k < a.height && 0 <= x < a.width ==> a.cells[k][x] == b.cells[k][x]
    ensures ColumnCoords(a, x, y, last) == ColumnCoords(b, x, y, last)
    decreases last - y
  {
    if y <= last {
      SameColumn(a, b, x, y + 1, last);
    }
  }

  lemma FillMisses(g: Grid, pts: set<Cell>, x: int, y: int)
    requires (x, y) !in pts
    ensures forall kind, k :: Is(Fill(g, pts, k), x, y, kind) <==> Is(g, x, y, kind)
  {
  }

  /** The inner loop of explose is about to visit row y of column x of the grid g, now turned into now. */
  ghost predicate Digging(g: Grid, now: Grid, x: int, first: int, y: int, last: int, coords: seq<int>) {
    && coords + ColumnCoords(g, x, y, last) == ColumnCoords(g, x, first, last)
    && |coords| % 2 == 0
    && (forall p :: p in Cells(coords) ==> p.1 < y)
    && now == Fill(g, Cells(coords), AIR)
  }

  lemma DiggingStart(g: Grid, x: int, first: int, last: int)
    ensures Digging(g, g, x, first, first, last, [])
  {
    SameGrid(g, Fill(g, {}, AIR));
  }

  lemma DiggingStep(g: Grid, now: Grid, x: int, first: int, y: int, last: int, coords: seq<int>)
    requires Digging(g, now, x, first, y, last, coords) && y <= last
    ensures Is(now, x, y, LIGHT_WALL) ==>
              Digging(g, Fill(now, {(x, y)}, AIR), x, first, y + 1, last, coords + [x, y])
    ensures !Is(now, x, y, LIGHT_WALL) ==> Digging(g, now, x, first, y + 1, last, coords)
  {
    FillMisses(g, Cells(coords), x, y);
    if Is(now, x, y, LIGHT_WALL) {
      CellsConcat(coords, [x, y]);
      assert Cells([x, y]) == {(x, y)};
      FillFill(g, Cells(coords), {(x, y)}, AIR);
      assert (coords + [x, y]) + ColumnCoords(g, x, y + 1, last)
          == coords + ([x, y] + ColumnCoords(g, x, y + 1, last));
    } else {
      assert [] + ColumnCoords(g, x, y + 1, last) == ColumnCoords(g, x, y + 1, last);
    }
  }

  lemma DiggingEnd(g: Grid, now: Grid, x: int, first: int, y: int, last: int, coords: seq<int>)
    requires Digging(g, now, x, first, y, last, coords) && y > last
    ensures coords == ColumnCoords(g, x, first, last) && |coords| % 2 == 0 && now == Fill(g, Cells(coords), AIR)
  {
  }

  /** Destroying column x after the columns before it. */
  lemma ColumnAfter(g: Grid, x: int, first: int, last: int, coords: seq<int>)
    requires |coords| % 2 == 0
    requires forall p :: p in Cells(coords) ==> p.0 < x
    ensures var now := Fill(g, Cells(coords), AIR);
            var column := ColumnCoords(g, x, first, last);
            && column == ColumnCoords(now, x, first, last)
            && |column| % 2 == 0 && |coords + column| % 2 == 0
            && Fill(now, Cells(column), AIR) == Fill(g, Cells(coords + column), AIR)
            && forall p :: p in Cells(coords + column) ==> p.0 < x + 1
  {
    SameColumn(g, Fill(g, Cells(coords), AIR), x, first, last);
    ColumnCells(g, x, first, last);
    CellsConcat(coords, ColumnCoords(g, x, first, last));
    FillFill(g, Cells(coords), Cells(ColumnCoords(g, x, first, last)), AIR);
  }

  lemma BlastUnfold(g: Grid, cx: int, cy: int, radius: int, x: int, coords: seq<int>)
    requires cx - radius <= x <= cx + radius
    ensures Chord(radius, x - cx) >= 0
    ensures (coords + ColumnCoords(g, x, FirstRow(cy, Chord(radius, x - cx)), LastRow(cy, Chord(radius, x - cx))))
            + BlastCoords(g, cx, cy, radius, x + 1)
         == coords + BlastCoords(g, cx, cy, radius, x)
  {
    ChordFits(radius, x - cx);
  }

  /** explose is about to visit column x: it has returned coords and turned the grid g into now. */
  ghost predicate Carving(g: Grid, now: Grid, cx: int, cy: int, radius: int, x: int, coords: seq<int>) {
    && cx - radius <= x
    && (radius >= 0 ==> x <= cx + radius + 1)
    && (radius < 0 ==> coords == [])
    && (radius >= 0 ==> coords + BlastCoords(g, cx, cy, radius, x) == Blast(g, cx, cy, radius))
    && |coords| % 2 == 0
    && (forall p :: p in Cells(coords) ==> p.0 < x)
    && now == Fill(g, Cells(coords), AIR)
  }

  lemma CarvingStart(g: Grid, cx: int, cy: int, radius: int)
    ensures Carving(g, g, cx, cy, radius, cx - radius, [])
  {
    SameGrid(g, Fill(g, {}, AIR));
  }

  lemma CarvingStep(g: Grid, now: Grid, cx: int, cy: int, radius: int, x: int, coords: seq<int>)
    requires Carving(g, now, cx, cy, radius, x, coords) && x <= cx + radius
    ensures Chord(radius, x - cx) >= 0
    ensures var column := ColumnCoords(now, x, FirstRow(cy, Chord(radius, x - cx)), LastRow(cy, Chord(radius, x - cx)));
            |column| % 2 == 0
            && Carving(g, Fill(now, Cells(column), AIR), cx, cy, radius, x + 1, coords + column)
  {
    BlastUnfold(g, cx, cy, radius, x, coords);
    ColumnAfter(g, x, FirstRow(cy, Chord(radius, x - cx)), LastRow(cy, Chord(radius, x - cx)), coords);
  }

  lemma CarvingEnd(g: Grid, now: Grid, cx: int, cy: int, radius: int, x: int, coords: seq<int>)
    requires Carving(g, now, cx, cy, radius, x, coords) && x > cx + radius
    ensures coords == Blast(g, cx, cy, radius)
    ensures now == Fill(g, Crater(g, cx, cy, radius), AIR)
  {
    BlastMeaning(g, cx, cy, radius);
  }

  // ---------------------------------------------------------------- the Map object

  class GameMap {
    const width: nat
    const height: nat
    var mur: seq<seq<char>>
    var waterLevel: nat

    ghost predicate Valid()
      reads this
    {
      RawGrid(width, height, mur, waterLevel).Valid()
    }

    function View(): Grid
      reads this
      requires Valid()
    {
      RawGrid(width, height, mur, waterLevel)
    }

    constructor (g: Grid)
      ensures Valid() && View() == g.(water := 0)
    {
      width, height, mur, waterLevel := g.width, g.height, g.cells, 0;
    }

    method SetBloc(x: int, y: int, kind: char)
      requires Valid()
      modifies this`mur
      ensures Valid() && View() == Fill(old(View()), {(x, y)}, kind)
    {
      if 0 <= x < width && 0 <= y < height {
        mur := mur[y := mur[y][x := kind]];
      }
      SameGrid(View(), Fill(old(View()), {(x, y)}, kind));
    }

    /** The inner loop of explose: one column, from row first to row last. */
    method ExploseColumn(x: int, first: int, last: int, found: seq<int>) returns (res: seq<int>)
      requires Valid()
      modifies this`mur
      ensures Valid()
      ensures res == found + ColumnCoords(old(View()), x, first, last)
      ensures |ColumnCoords(old(View()), x, first, last)| % 2 == 0
      ensures View() == Fill(old(View()), Cells(ColumnCoords(old(View()), x, first, last)), AIR)
    {
      hide Digging, ColumnCoords, Cells, Fill;
      res := found;
      var y := first;
      ghost var g := View();
      ghost var coords: seq<int> := [];
      DiggingStart(g, x, first, last);
      while y <= last
        invariant Valid() && Digging(g, View(), x, first, y, last, coords)
        invariant res == found + coords
      {
        DiggingStep(g, View(), x, first, y, last, coords);
        if 0 <= x < width && 0 <= y < height && mur[y][x] == LIGHT_WALL {
          SetBloc(x, y, AIR);
          coords := coords + [x, y];
          res := res + [x];
          res := res + [y];
        }
        y := y + 1;
      }
      DiggingEnd(g, View(), x, first, y, last, coords);
    }

    method Explose(cx: int, cy: int, radius: int) returns (res: seq<int>)
      requires Valid()
      modifies this`mur
      ensures Valid()
      ensures res == Blast(old(View()), cx, cy, radius)
      ensures View() == Fill(old(View()), Crater(old(View()), cx, cy, radius), AIR)
    {
      hide Carving, ColumnCoords, Cells, Fill, Blast, Crater, Chord, FirstRow, LastRow;
      res := [];
      ghost var g := View();
      CarvingStart(g, cx, cy, radius);
      var x := cx - radius;
      while x <= cx + radius
        invariant Valid() && Carving(g, View(), cx, cy, radius, x, res)
      {
        CarvingStep(g, View(), cx, cy, radius, x, res);
        res := ExploseColumn(x, FirstRow(cy, Chord(radius, x - cx)), LastRow(cy, Chord(radius, x - cx)), res);
        x := x + 1;
      }
      CarvingEnd(g, View(), cx, cy, radius, x, res);
    }

    method SetWaterLevel(level: nat)
      requires Valid() && level <= height
      modifies this
      ensures Valid() && View() == Flood(old(View()), level)
    {
      hide Flood, Fill, Row;
      ghost var g := View();
      waterLevel := level;
      FloodAfterLevel(g, View());
      if waterLevel != 0 {
        ClearRow(height - waterLevel);
      }
    }

    method IncreaseWaterLevel()
      requires Valid() && waterLevel < height
      modifies this
      ensures Valid() && View() == Flood(old(View()), old(View().water) + 1)
    {
      hide Flood, Fill, Row;
      ghost var g := View();
      waterLevel := waterLevel + 1;
      FloodAfterLevel(g, View());
      ClearRow(height - waterLevel);
    }

    method ClearRow(y: nat)
      requires Valid() && y < height
      modifies this`mur
      ensures Valid() && View() == Fill(old(View()), Row(old(View()), y), AIR)
    {
      ghost var g := View();
      var i := 0;
      while i < width
        invariant Valid() && 0 <= i <= width
        invariant forall k, x :: 0 <= k < height && 0 <= x < width ==>
                                   mur[k][x] == if k == y && x < i then AIR else g.cells[k][x]
      {
        mur := mur[y := mur[y][i := AIR]];
        i := i + 1;
      }
      SameGrid(View(), Fill(g, Row(g, y), AIR));
    }
  }
}
