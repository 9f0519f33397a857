/** One server-side simulation step on values: what Partie::updateSprites (Server/src/partie_serv.cpp)
    and the update methods of the sprites (sharedFiles/src) compute. */
module Arena {
  import opened Options
  import opened Physics
  import opened Terrain

  /** Missiles are built with radius 4. */
  type Radius = r: int | r > 0 witness 4

  datatype Kind =
    | Lombric(maxLife: int)
    | Projectile(radius: Radius, damage: int)
    | Box(health: int)

  /** A sprite: a worm has a non-zero id, a projectile or a health box has id 0. */
  datatype Body = Body(id: nat, kind: Kind, x: int, y: int, motion: Option<Motion>, life: int)

  /** The sprites in vector order, the coordinates destroyed so far, and the end-of-turn flag. */
  datatype World = World(grid: Grid, bodies: seq<Body>, deleted: seq<int>, turnOver: bool)

  predicate IsWorm(b: Body) {
    b.id != 0 && b.kind.Lombric?
  }

  function AsU32(n: int): nat {
    n % 0x1_0000_0000
  }

  /** The row test that kills a worm; its operands are unsigned 32-bit numbers in the code. */
  predicate Drowned(g: Grid, y: int) {
    AsU32(y) >= AsU32(g.height - g.water - 1)
  }

  function AddLife(b: Body, n: int): Body
    requires b.kind.Lombric?
  {
    b.(life := if b.life + n > b.kind.maxLife then b.kind.maxLife else b.life + n)
  }

  function Launch(b: Body, vx: real, vy: real, gravity: int, t: int): Body {
    b.(motion := Some(Motion(b.x, b.y, vx, vy, gravity, t)))
  }

  /** A sprite at rest with AIR below it starts to fall. */
  function Drop(g: Grid, b: Body, gravity: int, t: int): Body {
    if b.motion.None? && Is(g, b.x, b.y + 1, AIR) then Launch(b, 0.0, 0.0, gravity, t) else b
  }

  predicate Hits(g: Grid, m: Motion, t: int) {
    !Is(g, XAt(m, t), YAt(m, t), AIR)
  }

  // ---------------------------------------------------------------- worms

  const FALL_DAMAGE_SPEED: real := 14.14

  function Impact(life: int, speed: real): int {
    if speed >= FALL_DAMAGE_SPEED then Truncate(life as real - speed) else life
  }

  function WormUpdate(g: Grid, b: Body, t: int): Body
    requires b.kind.Lombric?
  {
    var moved :=
      if b.motion.None? then b
      else
        var m := b.motion.value;
        if Hits(g, m, t) then b.(motion := None, life := Impact(b.life, SpeedYAt(m, t)))
        else if YAt(m, t) > g.height then b.(life := 0)
        else b.(x := XAt(m, t), y := YAt(m, t));
    var falling := Drop(g, moved, GRAVITY, t);
    falling.(life := if Drowned(g, falling.y) || falling.life < 0 then 0 else falling.life)
  }

  // ---------------------------------------------------------------- health boxes

  function BoxMove(g: Grid, b: Body, t: int): Body
    requires b.kind.Box?
  {
    var moved :=
      if b.motion.None? then b
      else
        var m := b.motion.value;
        if Hits(g, m, t) then b.(motion := None) else b.(x := XAt(m, t), y := YAt(m, t));
    Drop(g, moved, BOX_GRAVITY, t)
  }

  /** A box that leaves the map below is lost before it can heal. */
  predicate BoxLost(g: Grid, b: Body, t: int) {
    b.motion.Some? && !Hits(g, b.motion.value, t) && YAt(b.motion.value, t) > g.height
  }

  /** The index of the first worm on the given cell, or the length of the vector. */
  function FirstWormAt(bodies: seq<Body>, x: int, y: int): (i: nat)
    ensures i <= |bodies|
    ensures i < |bodies| ==> IsWorm(bodies[i]) && bodies[i].x == x && bodies[i].y == y
    ensures forall k :: 0 <= k < i ==> !(IsWorm(bodies[k]) && bodies[k].x == x && bodies[k].y == y)
  {
    if bodies == [] then 0
    else if IsWorm(bodies[0]) && bodies[0].x == x && bodies[0].y == y then 0
    else 1 + FirstWormAt(bodies[1..], x, y)
  }

  // ---------------------------------------------------------------- explosions

  /** The largest k with k <= amount * (radius - distance) / radius + 1/2, without a square root. */
  function Share(amount: nat, radius: int, dist2: nat, k: nat): (s: nat)
    requires k <= amount
    ensures s <= k
  {
    if k == 0 || 4 * amount * amount * dist2 <= (2 * (amount - k) + 1) * (2 * (amount - k) + 1) * radius * radius
    then k
    else Share(amount, radius, dist2, k - 1)
  }

  /** round(damage * (radius - distance) / radius) for a squared distance. */
  function Falloff(damage: int, radius: int, dist2: nat): int {
    if damage >= 0 then Share(damage, radius, dist2, damage)
    else
      var loss: int := Share(-damage, radius, dist2, -damage);
      -loss
  }

  const BLAST_SPEED: int := 10

  function Explosed(b: Body, cx: int, cy: int, radius: Radius, damage: int, t: int): Body
    requires b.kind.Lombric?
  {
    var dist2 := (b.x - cx) * (b.x - cx) + (b.y - cy) * (b.y - cy);
    if dist2 <= radius * radius then
      Launch(AddLife(b, Falloff(damage, radius, dist2)),
             Quotient(BLAST_SPEED * (b.x - cx), radius) as real,
             Quotient(BLAST_SPEED * (b.y - cy), radius) as real, GRAVITY, t)
    else b
  }

  function ExplosedAll(bodies: seq<Body>, cx: int, cy: int, radius: Radius, damage: int, t: int): (r: seq<Body>)
    ensures |r| == |bodies|
  {
    seq(|bodies|, i requires 0 <= i < |bodies| =>
      if IsWorm(bodies[i]) then Explosed(bodies[i], cx, cy, radius, damage, t) else bodies[i])
  }

  // ---------------------------------------------------------------- one sprite's turn

  /** Sprite::update for the sprite at index k; the flag says whether it is still alive. */
  function UpdateAt(w: World, k: nat, t: int): (r: (World, bool))
    requires k < |w.bodies|
    ensures |r.0.bodies| == |w.bodies|
  {
    var b := w.bodies[k];
    match b.kind
    case Lombric(_) =>
      var b' := WormUpdate(w.grid, b, t);
      (w.(bodies := w.bodies[k := b']), b'.life != 0)
    case Projectile(_, _) =>
      if b.motion.None? then (w, true)
      else
        var m := b.motion.value;
        if Hits(w.grid, m, t) then (w.(bodies := w.bodies[k := b.(motion := None)]), false)
        else (w.(bodies := w.bodies[k := b.(x := XAt(m, t), y := YAt(m, t))]), true)
    case Box(health) =>
      if BoxLost(w.grid, b, t) then (w, false)
      else
        var b' := BoxMove(w.grid, b, t);
        var bodies := w.bodies[k := b'];
        var j := FirstWormAt(bodies, b'.x, b'.y);
        if j < |bodies| then (w.(bodies := bodies[j := AddLife(bodies[j], health)]), false)
        else (w.(bodies := bodies), true)
  }

  /** deathMove: a projectile explodes; the exploding sprite is still in the vector. */
  function DeathAt(w: World, k: nat, t: int): (r: World)
    requires k < |w.bodies|
    ensures |r.bodies| == |w.bodies|
  {
    var b := w.bodies[k];
    if b.kind.Projectile? then
      w.(grid := Fill(w.grid, Crater(w.grid, b.x, b.y, b.kind.radius), AIR),
         bodies := ExplosedAll(w.bodies, b.x, b.y, b.kind.radius, b.kind.damage, t),
         deleted := w.deleted + Blast(w.grid, b.x, b.y, b.kind.radius))
    else w
  }

  function Erase(bodies: seq<Body>, k: nat): (r: seq<Body>)
    requires k < |bodies|
    ensures |r| == |bodies| - 1
  {
    bodies[..k] + bodies[k + 1..]
  }

  datatype Outcome = Outcome(world: World, alive: bool, moving: bool)

  /** One iteration of the loop of updateSprites. */
  function StepAt(w: World, k: nat, t: int): (r: Outcome)
    requires k < |w.bodies|
    ensures |r.world.bodies| == if r.alive then |w.bodies| else |w.bodies| - 1
  {
    var (u, alive) := UpdateAt(w, k, t);
    var changed := w.bodies[k].id != 0 && u.bodies[k].life != w.bodies[k].life;
    var v := u.(turnOver := u.turnOver || changed);
    if alive then Outcome(v, true, v.bodies[k].motion.Some?)
    else
      var d := DeathAt(v, k, t);
      Outcome(d.(bodies := Erase(d.bodies, k)), false, true)
  }

  /** The rest of one call of updateSprites: the sprites from index k on. */
  function PassFrom(w: World, k: nat, t: int, moving: bool): (World, bool)
    requires k <= |w.bodies|
    decreases |w.bodies| - k
  {
    if k == |w.bodies| then (w, moving)
    else
      var o := StepAt(w, k, t);
      PassFrom(o.world, if o.alive then k + 1 else k, t, moving || o.moving)
  }

  /** One call of updateSprites(t). */
  function Pass(w: World, t: int): (World, bool) {
    PassFrom(w, 0, t, false)
  }

  // ---------------------------------------------------------------- update

  /** The state after n passes, 25 ms apart, the first of them at time t. */
  function After(w: World, t: int, n: nat): World
    decreases n
  {
    if n == 0 then w else After(Pass(w, t).0, t + TICK, n - 1)
  }

  /** The loop of update that starts at time t leaves after pass n, counted from 0: it is the first that
      sees no movement. */
  predicate Returns(w: World, t: int, n: nat)
    decreases n
  {
    var (w', moving) := Pass(w, t);
    if moving then n > 0 && Returns(w', t + TICK, n - 1) else n == 0
  }

  /** The loop of update returns. */
  ghost predicate Settles(w: World, t: int) {
    exists n: nat :: Returns(w, t, n)
  }

  /** The number of passes before the last one. */
  ghost function Passes(w: World, t: int): (n: nat)
    requires Settles(w, t)
    ensures Returns(w, t, n)
  {
    var n: nat :| Returns(w, t, n);
    n
  }

  /** The state update returns with. */
  ghost function Settle(w: World, t: int): World
    requires Settles(w, t)
  {
    After(w, t, Passes(w, t) + 1)
  }

  lemma {:induction false} ReturnsOnce(w: World, t: int, m: nat, n: nat)
    requires Returns(w, t, m) && Returns(w, t, n)
    ensures m == n
    decreases m
  {
    hide Pass;
    if Pass(w, t).1 {
      ReturnsOnce(Pass(w, t).0, t + TICK, m - 1, n - 1);
    }
  }

  /** One turn of the loop of update. */
  lemma SettlesStep(w: World, t: int)
    ensures var (w', moving) := Pass(w, t);
            && (Settles(w, t) <==> (moving ==> Settles(w', t + TICK)))
            && (Settles(w, t) && moving ==>
                  Settle(w, t) == Settle(w', t + TICK) && Passes(w, t) == Passes(w', t + TICK) + 1)
            && (Settles(w, t) && !moving ==> Settle(w, t) == w' && Passes(w, t) == 0)
  {
    hide Pass;
    var (w', moving) := Pass(w, t);
    if moving {
      if Settles(w', t + TICK) {
        var n := Passes(w', t + TICK);
        assert Returns(w, t, n + 1);
        ReturnsOnce(w, t, n + 1, Passes(w, t));
      }
      forall n: nat | Returns(w, t, n)
        ensures Settles(w', t + TICK)
      {
        assert Returns(w', t + TICK, n - 1);
      }
    } else {
      assert Returns(w, t, 0);
      assert After(w', t + TICK, 0) == w';
    }
  }

  lemma {:induction false} AfterSplit(w: World, t: int, m: nat, n: nat)
    ensures After(w, t, m + n) == After(After(w, t, m), t + 25 * m, n)
    decreases m
  {
    hide Pass;
    if m > 0 {
      AfterSplit(Pass(w, t).0, t + TICK, m - 1, n);
    }
  }
}
