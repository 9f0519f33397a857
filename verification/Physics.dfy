/** Trajectories (sharedFiles/src/physicsObject.cpp), in exact real arithmetic. */
module Physics {
  /** std::round: to the nearest integer, halves away from zero. */
  function Round(x: real): int {
    if x >= 0.0 then (x + 0.5).Floor else -((-x + 0.5).Floor)
  }

  /** Conversion of a double to int: toward zero. */
  function Truncate(x: real): int {
    if x >= 0.0 then x.Floor else -((-x).Floor)
  }

  /** Division of two ints in C: toward zero. */
  function Quotient(a: int, b: int): int
    requires b > 0
  {
    if a >= 0 then a / b else -((-a) / b)
  }

  /** A parabolic movement; times are in milliseconds, speeds in cells per second. */
  datatype Motion = Motion(x0: int, y0: int, vx: real, vy: real, gravity: int, t0: int)

  const TICK: int := 25

  function Seconds(m: Motion, t: int): real {
    (t - m.t0) as real / 1000.0
  }

  function XAt(m: Motion, t: int): int {
    Round(m.vx * Seconds(m, t) + m.x0 as real)
  }

  function Height(gravity: real, vy: real, y0: real, s: real): real {
    gravity * s * s / 2.0 + vy * s + y0
  }

  function YAt(m: Motion, t: int): int {
    Round(Height(m.gravity as real, m.vy, m.y0 as real, Seconds(m, t)))
  }

  /** getSpeedY: its parameter is an int, so the elapsed seconds are truncated to whole ones. */
  function SpeedYAt(m: Motion, t: int): real {
    m.gravity as real * Truncate(Seconds(m, t)) as real + m.vy
  }

  /** The number of update steps a movement has lasted. */
  function Ticks(m: Motion, t: int): int {
    (t - m.t0) / TICK
  }

  predicate OnTick(m: Motion, t: int) {
    m.t0 <= t && (t - m.t0) % TICK == 0
  }

  /** The nearest whole number, and of two of them the one that is farther from zero. */
  lemma RoundMeaning(x: real)
    ensures -1.0 <= 2.0 * (Round(x) as real - x) <= 1.0
    ensures 2.0 * (Round(x) as real - x) == 1.0 ==> x > 0.0
    ensures 2.0 * (Round(x) as real - x) == -1.0 ==> x < 0.0
  {
  }

  /** The part before the decimal point: no farther from zero than x, and less than one away. */
  lemma TruncateMeaning(x: real)
    ensures x >= 0.0 ==> 0.0 <= Truncate(x) as real <= x < Truncate(x) as real + 1.0
    ensures x <= 0.0 ==> Truncate(x) as real - 1.0 < x <= Truncate(x) as real <= 0.0
  {
  }

  /** The quotient no farther from zero than the exact one, and less than one away. */
  lemma QuotientMeaning(a: int, b: int)
    requires b > 0
    ensures a >= 0 ==> 0 <= Quotient(a, b) * b <= a < Quotient(a, b) * b + b
    ensures a <= 0 ==> Quotient(a, b) * b - b < a <= Quotient(a, b) * b <= 0
  {
    var n := if a >= 0 then a else -a;
    WholePart(n, b);
    NegatedTimes(n / b, b);
  }

  lemma WholePart(n: nat, b: int)
    requires b > 0
    ensures 0 <= n / b * b <= n < n / b * b + b
  {
    assert n == b * (n / b) + n % b;
  }

  lemma NegatedTimes(q: int, b: int)
    ensures -q * b == -(q * b)
  {
  }

  /** The cell of a moving sprite is the one nearest to its exact position: the start, the launch speed times
      the time, and half of gravity times the time squared. */
  lemma PositionIsNearest(m: Motion, t: int)
    ensures -1.0 <= 2.0 * (XAt(m, t) as real - m.x0 as real - m.vx * Seconds(m, t)) <= 1.0
    ensures var s := Seconds(m, t);
            -1.0 <= 2.0 * (YAt(m, t) as real - m.y0 as real - m.vy * s - m.gravity as real * s * s / 2.0) <= 1.0
  {
    RoundMeaning(m.vx * Seconds(m, t) + m.x0 as real);
    HeightIsNearest(m.gravity as real, m.vy, m.y0 as real, Seconds(m, t));
  }

  lemma HeightIsNearest(gravity: real, vy: real, y0: real, s: real)
    ensures -1.0 <= 2.0 * (Round(Height(gravity, vy, y0, s)) as real - y0 - vy * s - gravity * s * s / 2.0) <= 1.0
  {
    RoundMeaning(Height(gravity, vy, y0, s));
  }

  /** Forty ticks are a second. */
  lemma FortyTicks(m: Motion, t: int)
    ensures Seconds(m, t + 40 * TICK) == Seconds(m, t) + 1.0 && Seconds(m, m.t0) == 0.0
  {
  }

  /** The speed a fall is judged by is the exact one, less than one second of gravity too low. */
  lemma SpeedMeaning(m: Motion, t: int)
    requires m.t0 <= t && m.gravity > 0
    ensures var exact := m.vy + m.gravity as real * Seconds(m, t);
            SpeedYAt(m, t) <= exact < SpeedYAt(m, t) + m.gravity as real
    ensures t - m.t0 < 1000 ==> SpeedYAt(m, t) == m.vy
  {
    hide Seconds, Truncate;
    SecondsPassed(m, t);
    TruncateMeaning(Seconds(m, t));
    BelowOneMore(m.gravity as real, m.vy, Truncate(Seconds(m, t)) as real, Seconds(m, t),
                 SpeedYAt(m, t), m.vy + m.gravity as real * Seconds(m, t));
    FirstSecond(Seconds(m, t));
  }

  lemma SecondsPassed(m: Motion, t: int)
    ensures m.t0 <= t ==> Seconds(m, t) >= 0.0
    ensures t - m.t0 < 1000 ==> Seconds(m, t) < 1.0
  {
  }

  lemma BelowOneMore(g: real, vy: real, w: real, s: real, low: real, exact: real)
    requires g > 0.0 && w <= s < w + 1.0 && low == g * w + vy && exact == vy + g * s
    ensures low <= exact < low + g
  {
    var rest := s - w;
    assert exact - low == g * rest;
    PartOf(g, rest);
  }

  lemma PartOf(g: real, part: real)
    requires g > 0.0 && 0.0 <= part < 1.0
    ensures 0.0 <= g * part < g
  {
    assert g * (1.0 - part) > 0.0;
  }

  lemma FirstSecond(s: real)
    ensures 0.0 <= s < 1.0 ==> Truncate(s) == 0
  {
  }

  /** A sprite never moves against the horizontal direction of its launch. */
  lemma NeverBack(m: Motion, t: int)
    requires m.t0 <= t
    ensures m.vx >= 0.0 ==> XAt(m, t) >= m.x0
    ensures m.vx <= 0.0 ==> XAt(m, t) <= m.x0
  {
    var s := Seconds(m, t);
    assert s >= 0.0;
    RoundWhole(m.x0);
    if m.vx >= 0.0 {
      assert m.vx * s >= 0.0;
      RoundMonotone(m.x0 as real, m.vx * s + m.x0 as real);
    }
    if m.vx <= 0.0 {
      assert (-m.vx) * s >= 0.0;
      assert (-m.vx) * s == -(m.vx * s);
      RoundMonotone(m.vx * s + m.x0 as real, m.x0 as real);
    }
  }

  lemma RoundMonotone(x: real, y: real)
    requires x <= y
    ensures Round(x) <= Round(y)
  {
  }

  lemma RoundWhole(n: int)
    ensures Round(n as real) == n
  {
  }

  /** A movement starts where it was launched. */
  lemma StartsAt(m: Motion)
    ensures XAt(m, m.t0) == m.x0 && YAt(m, m.t0) == m.y0
  {
    assert Seconds(m, m.t0) == 0.0;
    RoundWhole(m.x0);
    RoundWhole(m.y0);
  }

  /** A number of ticks after which a movement under positive gravity is below row height. */
  function Landing(m: Motion, height: nat): (n: nat)
    requires m.gravity > 0
    ensures n >= 40
  {
    var drop := if height > m.y0 then height - m.y0 else 0;
    var need := 80.0 * (drop as real - m.vy) / m.gravity as real;
    if need <= 40.0 then 40 else need.Floor + 1
  }

  lemma SecondsOfTicks(m: Motion, t: int)
    requires OnTick(m, t)
    ensures Seconds(m, t) == Ticks(m, t) as real / 40.0
  {
    assert t - m.t0 == 25 * Ticks(m, t);
    assert (t - m.t0) as real == 25.0 * Ticks(m, t) as real;
  }

  lemma RateReached(gravity: real, n: real, drop: real, vy: real)
    requires gravity > 0.0 && n >= 80.0 * (drop - vy) / gravity
    ensures n * gravity / 80.0 + vy >= drop
  {
    var need := 80.0 * (drop - vy) / gravity;
    assert need * gravity == 80.0 * (drop - vy);
    assert (n - need) * gravity >= 0.0;
  }

  lemma DistanceReached(gravity: real, s: real, drop: real, vy: real)
    requires s >= 1.0 && drop >= 0.0 && gravity * s / 2.0 + vy >= drop
    ensures gravity * s * s / 2.0 + vy * s >= drop
  {
    var rate := gravity * s / 2.0 + vy;
    assert (s - 1.0) * rate >= 0.0;
    assert gravity * s * s / 2.0 + vy * s == s * rate;
  }

  lemma LandingBound(m: Motion, height: nat, n: int)
    requires m.gravity > 0 && n >= Landing(m, height)
    ensures n >= 40
    ensures n as real >= 80.0 * ((if height > m.y0 then height - m.y0 else 0) as real - m.vy) / m.gravity as real
  {
  }

  lemma HeightReached(gravity: real, n: real, s: real, drop: real, vy: real, y0: real, height: real)
    requires gravity > 0.0 && n >= 40.0 && s == n / 40.0
    requires n >= 80.0 * (drop - vy) / gravity
    requires drop >= 0.0 && drop + y0 >= height
    ensures Height(gravity, vy, y0, s) >= height
  {
    RateReached(gravity, n, drop, vy);
    assert gravity * s / 2.0 == n * gravity / 80.0;
    DistanceReached(gravity, s, drop, vy);
  }

  /** Every flight ends: from its landing tick on, a movement is at or below row height. */
  lemma Lands(m: Motion, height: nat, t: int)
    requires m.gravity > 0 && OnTick(m, t) && Ticks(m, t) >= Landing(m, height)
    ensures YAt(m, t) >= height
  {
    var n, s := Ticks(m, t), Seconds(m, t);
    var drop := if height > m.y0 then height - m.y0 else 0;
    SecondsOfTicks(m, t);
    LandingBound(m, height, n);
    HeightReached(m.gravity as real, n as real, s, drop as real, m.vy, m.y0 as real, height as real);
    RoundMonotone(height as real, Height(m.gravity as real, m.vy, m.y0 as real, s));
    RoundWhole(height);
  }

  // ---------------------------------------------------------------- falls from rest

  const GRAVITY: int := 25
  /** GRAVITY/4, an integer division. */
  const BOX_GRAVITY: int := 6

  /** A movement without initial speed, as a sprite with nothing below it gets. */
  predicate FromRest(m: Motion) {
    m.vx == 0.0 && m.vy == 0.0 && (m.gravity == GRAVITY || m.gravity == BOX_GRAVITY)
  }

  /** The distance fallen from rest, in rows, after n ticks. */
  function Fallen(gravity: int, n: nat): real {
    gravity as real * (n * n) as real / 3200.0
  }

  lemma FallPosition(m: Motion, t: int)
    requires FromRest(m) && OnTick(m, t) && m.y0 >= 0
    ensures Ticks(m, t) >= 0
    ensures XAt(m, t) == m.x0
    ensures YAt(m, t) == m.y0 + (Fallen(m.gravity, Ticks(m, t)) + 0.5).Floor
    ensures Fallen(m.gravity, Ticks(m, t)) >= 0.0
  {
    SecondsOfTicks(m, t);
    RoundWhole(m.x0);
    var n := Ticks(m, t);
    var s := Seconds(m, t);
    assert s * s == (n * n) as real / 1600.0;
    assert m.gravity as real * s * s / 2.0 == m.gravity as real * (s * s) / 2.0;
    assert (n * n) as real >= 0.0;
    assert Fallen(m.gravity, n) == m.gravity as real * s * s / 2.0;
  }

  /** A fall never jumps over the row below its start: if one tick later it is two rows or more
      below its start, it is already at least one row below. */
  lemma FallsRowByRow(m: Motion, t: int)
    requires FromRest(m) && OnTick(m, t) && m.y0 >= 0 && Ticks(m, t) >= 1
    requires YAt(m, t) >= m.y0 + 2
    ensures OnTick(m, t - TICK)
    ensures YAt(m, t - TICK) >= m.y0 + 1
  {
    var n := Ticks(m, t);
    assert t - m.t0 == 25 * n;
    assert t - TICK - m.t0 == 25 * (n - 1);
    FallPosition(m, t);
    FallPosition(m, t - TICK);
    assert Fallen(m.gravity, n) >= 1.5;
    assert m.gravity * (n * n) >= 4800;
    SquaresFromRest(m.gravity, n);
    assert (m.gravity * ((n - 1) * (n - 1))) as real >= 1600.0;
  }

  lemma SquaresFromRest(gravity: int, n: nat)
    requires 0 < gravity <= 25 && gravity * (n * n) >= 4800
    ensures n >= 1 && gravity * ((n - 1) * (n - 1)) >= 1600
  {
    AtLeastFourteen(gravity, n);
    ThreeSquares(n);
    var less, all := (n - 1) * (n - 1), n * n;
    TimesGravity(gravity, 3 * less, all);
    assert gravity * (3 * less) == 3 * (gravity * less);
  }

  lemma AtLeastFourteen(gravity: int, n: nat)
    requires 0 < gravity <= 25 && gravity * (n * n) >= 4800
    ensures n >= 14
  {
    assert n > 13 || n * n <= 169;
  }

  lemma ThreeSquares(n: nat)
    requires n >= 4
    ensures 3 * ((n - 1) * (n - 1)) >= n * n
  {
    assert 3 * ((n - 1) * (n - 1)) - n * n == n * (2 * n - 6) + 3;
    assert n * (2 * n - 6) >= 0;
  }

  lemma TimesGravity(gravity: int, a: int, b: int)
    requires gravity > 0 && a >= b
    ensures gravity * a >= gravity * b
  {
    assert gravity * (a - b) >= 0;
  }

  /** A fall from rest takes at most this many ticks. */
  function LongestFall(height: nat): nat {
    14 * height + 41
  }

  lemma FallsAreShort(m: Motion, height: nat)
    requires FromRest(m) && m.y0 >= 0
    ensures Landing(m, height) <= LongestFall(height)
  {
    var drop := if height > m.y0 then height - m.y0 else 0;
    var need := 80.0 * (drop as real - m.vy) / m.gravity as real;
    assert need <= 80.0 * drop as real / 6.0;
    assert need <= 14.0 * height as real;
    assert need.Floor <= 14 * height;
  }
}
