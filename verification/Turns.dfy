/** What a player can do in a round, on values: shoot (sharedFiles/src/arme.cpp, Partie::useWeapon) and
    walk (Partie::moveCurrentLombric), each followed by an update. */
module Turns {
  import opened Options
  import opened Physics
  import opened Terrain
  import opened Arena
  import opened Settling
  import opened Quiescence

  /** Nothing is in flight, and boxes are on AIR. Worms may be inside walls. */
  predicate AtRest(w: World) {
    && w.grid.water < w.grid.height
    && forall i :: 0 <= i < |w.bodies| ==>
         var b := w.bodies[i];
         && b.motion.None?
         && match b.kind
            case Lombric(maxLife) => b.life <= maxLife
            case Projectile(_, _) => false
            case Box(_) => b.id == 0 && OnAir(w.grid, b)
  }

  /** The state between two player actions: at rest, and no worm hangs in a wall. */
  predicate Playable(w: World) {
    AtRest(w) && NoneHangs(w, 0, 0)
  }

  lemma AtRestFits(w: World, t: int)
    requires AtRest(w)
    ensures Inv(w, 0, t) && NoProjectile(w.bodies) && (NoneHangs(w, 0, t) <==> NoneHangs(w, 0, 0))
  {
    forall i | 0 <= i < |w.bodies|
      ensures Hanging(w.grid, w.bodies[i], t) <==> Hanging(w.grid, w.bodies[i], 0)
    {
    }
  }

  // ---------------------------------------------------------------- weapons

  datatype Weapon = LanceMissile | BatteBaseball | PassTour

  const MISSILE_RADIUS: Radius := 4
  const WEAPON_DAMAGE: int := -25

  /** The missile leaves from the cell above the worm. */
  function Missile(b: Body, vx: real, vy: real, t: int): Body {
    Launch(Body(0, Projectile(MISSILE_RADIUS, WEAPON_DAMAGE), b.x, b.y - 1, None, 0), vx, vy, GRAVITY, t)
  }

  function Batted(b: Body, vx: real, vy: real, t: int): Body
    requires b.kind.Lombric?
  {
    AddLife(Launch(b, vx, vy, GRAVITY, t), WEAPON_DAMAGE)
  }

  /** The bat hits every other worm on the shooter's cell. */
  function BattedAll(bodies: seq<Body>, c: nat, vx: real, vy: real, t: int): (r: seq<Body>)
    requires c < |bodies|
    ensures |r| == |bodies|
  {
    seq(|bodies|, i requires 0 <= i < |bodies| =>
      if IsWorm(bodies[i]) && i != c && bodies[i].x == bodies[c].x && bodies[i].y == bodies[c].y
      then Batted(bodies[i], vx, vy, t) else bodies[i])
  }

  /** The worm at index c shoots, at time 0, with the given launch speed. */
  function Shoot(w: World, c: nat, weapon: Weapon, vx: real, vy: real): World
    requires c < |w.bodies|
  {
    match weapon
    case LanceMissile => w.(bodies := w.bodies + [Missile(w.bodies[c], vx, vy, 0)])
    case BatteBaseball => w.(bodies := BattedAll(w.bodies, c, vx, vy, 0))
    case PassTour => w
  }

  /** A missile is launched from the cell above the shooter, behind all other sprites, which stay as they are:
      it has id 0, a radius of 4, and takes 25 from a worm at the centre. */
  lemma MissileMeaning(w: World, c: nat, vx: real, vy: real)
    requires c < |w.bodies|
    ensures var s, m := Shoot(w, c, LanceMissile, vx, vy), Motion(w.bodies[c].x, w.bodies[c].y - 1, vx, vy, 25, 0);
            && s == w.(bodies := s.bodies) && |s.bodies| == |w.bodies| + 1 && s.bodies[..|w.bodies|] == w.bodies
            && s.bodies[|w.bodies|] == Body(0, Projectile(4, -25), m.x0, m.y0, Some(m), 0)
  {
  }

  /** The bat throws and hurts the worms with an id on the shooter's cell, except the shooter: they start with
      its speed and lose 25. Everything else stays as it is. */
  lemma BatMeaning(w: World, c: nat, vx: real, vy: real, i: nat)
    requires c < |w.bodies| && i < |w.bodies|
    ensures var s, b := Shoot(w, c, BatteBaseball, vx, vy), w.bodies[i];
            && s == w.(bodies := s.bodies) && |s.bodies| == |w.bodies|
            && (i == c || b.id == 0 || !b.kind.Lombric? || (b.x, b.y) != (w.bodies[c].x, w.bodies[c].y) <==> s.bodies[i] == b)
            && (s.bodies[i] != b ==>
                  && b.kind.Lombric?
                  && s.bodies[i].life == (if b.life - 25 <= b.kind.maxLife then b.life - 25 else b.kind.maxLife)
                  && s.bodies[i] == b.(life := s.bodies[i].life, motion := Some(Motion(b.x, b.y, vx, vy, 25, 0))))
  {
  }

  /** A shot from a state at rest satisfies the invariant of the update, whatever its speed. */
  lemma ShotFits(w: World, c: nat, weapon: Weapon, vx: real, vy: real)
    requires AtRest(w) && c < |w.bodies|
    ensures var s := Shoot(w, c, weapon, vx, vy);
            Inv(s, 0, 0) && s.grid == w.grid && s.deleted == w.deleted
            && Ids(s.bodies) <= Ids(w.bodies) + multiset{0}
  {
    var s := Shoot(w, c, weapon, vx, vy);
    match weapon {
      case LanceMissile =>
        var m := Missile(w.bodies[c], vx, vy, 0);
        StartsAt(m.motion.value);
        forall i | 0 <= i < |s.bodies|
          ensures Fit(s.grid, s.bodies[i], 0)
        {
          assert i < |w.bodies| ==> s.bodies[i] == w.bodies[i];
        }
        IdsAppended(w.bodies, m);
      case BatteBaseball =>
        forall i | 0 <= i < |s.bodies|
          ensures Fit(s.grid, s.bodies[i], 0)
        {
          if s.bodies[i].motion.Some? {
            StartsAt(s.bodies[i].motion.value);
          }
        }
        IdsSame(w.bodies, s.bodies);
      case PassTour =>
    }
  }

  lemma {:induction false} IdsAppended(bodies: seq<Body>, b: Body)
    ensures Ids(bodies + [b]) == Ids(bodies) + multiset{b.id}
  {
    if bodies == [] {
      assert bodies + [b] == [b];
    } else {
      assert (bodies + [b])[1..] == bodies[1..] + [b];
      IdsAppended(bodies[1..], b);
    }
  }

  /** The world useWeapon simulates: the list of destroyed coordinates is cleared, and the shot is fired. */
  function Fired(w: World, c: nat, weapon: Weapon, vx: real, vy: real): World
    requires c < |w.bodies|
  {
    Shoot(w.(deleted := []), c, weapon, vx, vy)
  }

  /** useWeapon, for a shot whose simulation ends. */
  ghost function UseWeapon(w: World, c: nat, weapon: Weapon, vx: real, vy: real): World
    requires c < |w.bodies| && Settles(Fired(w, c, weapon, vx, vy), 0)
  {
    Settle(Fired(w, c, weapon, vx, vy), 0)
  }

  /** What is left of a quiescent state can be played. */
  lemma QuiescentIsPlayable(w: World, t: int)
    requires Inv(w, 0, t) && Quiescent(w)
    ensures Playable(w)
  {
  }

  // ---------------------------------------------------------------- ids of worms

  /** Worms have ids of their own, other sprites have id 0. */
  predicate Named(bodies: seq<Body>) {
    forall i :: 0 <= i < |bodies| ==> (bodies[i].kind.Lombric? <==> bodies[i].id != 0)
  }

  /** No sprite is renamed or changes its kind in an update. */
  lemma StepNamed(w: World, k: nat, t: int)
    requires k < |w.bodies| && Named(w.bodies)
    ensures Named(StepAt(w, k, t).world.bodies)
  {
    var (u, alive) := UpdateAt(w, k, t);
    var d := if alive then u else DeathAt(u, k, t);
    UpdateNamed(w, k, t);
    hide UpdateAt;
    if !alive {
      assert forall i :: 0 <= i < |d.bodies| - 1 ==> Erase(d.bodies, k)[i] == d.bodies[if i < k then i else i + 1];
    }
  }

  lemma UpdateNamed(w: World, k: nat, t: int)
    requires k < |w.bodies| && Named(w.bodies)
    ensures Named(UpdateAt(w, k, t).0.bodies)
  {
  }

  lemma {:induction false} PassNamed(w: World, k: nat, t: int, moving: bool)
    requires k <= |w.bodies| && Named(w.bodies)
    ensures Named(PassFrom(w, k, t, moving).0.bodies)
    decreases |w.bodies| - k
  {
    if k < |w.bodies| {
      StepNamed(w, k, t);
      hide StepAt;
      var o := StepAt(w, k, t);
      PassNamed(o.world, NextIndex(o, k), t, moving || o.moving);
    }
  }

  lemma {:induction false} SettleNamed(w: World, t: int)
    requires Settles(w, t) && Named(w.bodies)
    ensures Named(Settle(w, t).bodies)
    decreases Passes(w, t)
  {
    hide PassFrom, Settles, Settle, Named;
    SettlesStep(w, t);
    PassNamed(w, 0, t, false);
    var (w', moving) := Pass(w, t);
    if moving {
      SettleNamed(w', t + TICK);
    }
  }

  /** An update that returns leaves a playable state. */
  lemma SettleIsPlayable(w: World)
    requires Inv(w, 0, 0) && Settles(w, 0)
    ensures Playable(Settle(w, 0)) && Quiescent(Settle(w, 0)) && Evolves(w, Settle(w, 0))
    ensures Named(w.bodies) ==> Named(Settle(w, 0).bodies)
  {
    hide *;
    if Named(w.bodies) {
      SettleNamed(w, 0);
    }
    InvIsSound(w, 0, 0);
    SettleIsQuiescent(w, 0);
    SettleEvolves(w, 0);
    SettleKeepsInv(w, 0);
    QuiescentIsPlayable(Settle(w, 0), 25 * (Passes(w, 0) + 1));
  }

  /** A shot names its sprites properly, and only the missile launcher brings in a projectile. */
  lemma ShotNamed(w: World, c: nat, weapon: Weapon, vx: real, vy: real)
    requires AtRest(w) && c < |w.bodies|
    ensures var s := Shoot(w, c, weapon, vx, vy);
            (Named(w.bodies) ==> Named(s.bodies)) && (!weapon.LanceMissile? ==> NoProjectile(s.bodies))
  {
  }

  lemma ReportedFromNothing(s: World, w': World)
    requires Evolves(s, w') && s.deleted == []
    ensures |w'.deleted| % 2 == 0 && w'.grid == Fill(s.grid, Cells(w'.deleted), AIR)
  {
    assert w'.deleted[0..] == w'.deleted;
  }

  /** After a shot everything is at rest again, and the terrain has lost exactly the reported cells. */
  lemma UseWeaponMeaning(w: World, c: nat, weapon: Weapon, vx: real, vy: real)
    requires AtRest(w) && c < |w.bodies| && Settles(Fired(w, c, weapon, vx, vy), 0)
    ensures var w' := UseWeapon(w, c, weapon, vx, vy);
            && Playable(w') && Quiescent(w') && (Named(w.bodies) ==> Named(w'.bodies))
            && |w'.deleted| % 2 == 0 && w'.grid == Fill(w.grid, Cells(w'.deleted), AIR)
            && Ids(w'.bodies) <= Ids(w.bodies) + multiset{0}
            && (!weapon.LanceMissile? ==> w'.deleted == [] && w'.grid == w.grid)
  {
    hide Settle, Settles, Shoot, Inv, Playable, Quiescent, Named, AllOnAir, Fill, Reported, NoProjectile;
    var clean := w.(deleted := []);
    CleanAtRest(w);
    ShotFits(clean, c, weapon, vx, vy);
    ShotNamed(clean, c, weapon, vx, vy);
    var s := Fired(w, c, weapon, vx, vy);
    SettleIsPlayable(s);
    ReportedFromNothing(s, Settle(s, 0));
  }

  lemma CleanAtRest(w: World)
    requires AtRest(w)
    ensures AtRest(w.(deleted := []))
  {
  }

  // ---------------------------------------------------------------- walking

  /** findById: the index of the first sprite with the given id, or the length of the vector. */
  function FindById(bodies: seq<Body>, id: nat): (i: nat)
    ensures i <= |bodies| && (i < |bodies| ==> bodies[i].id == id)
    ensures forall k :: 0 <= k < i ==> bodies[k].id != id
  {
    if bodies == [] || bodies[0].id == id then 0 else 1 + FindById(bodies[1..], id)
  }

  /** The server's test of a new position: its first conjunct is the same twice. */
  predicate AcceptsMove(b: Body, x: int, y: int) {
    b.x == x - 1 && (b.y == y || b.y - 1 == y)
  }

  /** The sprite named in the message is a worm, and its new position passes the test. */
  predicate CanMove(w: World, id: nat, x: int, y: int) {
    var c := FindById(w.bodies, id);
    c < |w.bodies| && w.bodies[c].kind.Lombric? && AcceptsMove(w.bodies[c], x, y)
  }

  function MoveTo(w: World, c: nat, x: int, y: int): World
    requires c < |w.bodies|
  {
    w.(bodies := w.bodies[c := w.bodies[c].(x := x, y := y)])
  }

  const FORWARD: int := 1
  const BACKWARD: int := -1
  const JUMP: int := 0

  /** Lombric_c::move, as the client applies it: the worm's new direction and position. */
  function Step(g: Grid, b: Body, direction: int, kind: int): (r: (int, int, int))
    requires direction == FORWARD || direction == BACKWARD
    requires kind == FORWARD || kind == BACKWARD || kind == JUMP
  {
    var turned := kind != JUMP && direction != kind;
    var facing := if kind != JUMP then kind else direction;
    var x, y := b.x + facing, if kind == JUMP then b.y - 1 else b.y;
    if b.motion.None? && !turned && (kind == JUMP ==> Is(g, b.x, y, AIR)) && Is(g, x, y, AIR)
    then (facing, x, y) else (facing, b.x, b.y)
  }

  /** A step that moves the worm takes it to a free cell; the server accepts it exactly if it goes right. */
  lemma StepMeaning(g: Grid, b: Body, direction: int, kind: int)
    requires direction == FORWARD || direction == BACKWARD
    requires kind == FORWARD || kind == BACKWARD || kind == JUMP
    ensures var (facing, x, y) := Step(g, b, direction, kind);
            (x, y) != (b.x, b.y) ==>
              && Is(g, x, y, AIR) && facing == direction
              && (AcceptsMove(b, x, y) <==> facing == FORWARD)
  {
  }

  /** A step in the direction the worm faces moves it if nothing is in the way, a jump one row up if there is
      AIR above it too; anything else leaves it where it is, and a step the other way only turns it. */
  lemma StepMovesIff(g: Grid, b: Body, direction: int, kind: int)
    requires direction == FORWARD || direction == BACKWARD
    requires kind == FORWARD || kind == BACKWARD || kind == JUMP
    ensures var (facing, x, y) := Step(g, b, direction, kind);
            && facing == (if kind == JUMP then direction else kind)
            && ((x, y) == (b.x, b.y) || (x, y) == (b.x + direction, if kind == JUMP then b.y - 1 else b.y))
            && ((x, y) != (b.x, b.y) <==>
                  && b.motion.None? && kind != -direction
                  && (kind == JUMP ==> Is(g, b.x, b.y - 1, AIR) && Is(g, b.x + direction, b.y - 1, AIR))
                  && (kind != JUMP ==> Is(g, b.x + direction, b.y, AIR)))
  {
  }

  /** What the server accepts, on AIR, is a step or a jump to the right that a client can make. */
  lemma AcceptedIsStep(g: Grid, b: Body, x: int, y: int)
    requires AcceptsMove(b, x, y) && b.motion.None? && Is(g, x, y, AIR) && Is(g, b.x, b.y - 1, AIR)
    ensures Step(g, b, FORWARD, if y == b.y then FORWARD else JUMP) == (FORWARD, x, y)
  {
  }

  lemma MovedAtRest(w: World, c: nat, x: int, y: int)
    requires AtRest(w) && c < |w.bodies| && w.bodies[c].kind.Lombric?
    ensures var m := MoveTo(w, c, x, y);
            && AtRest(m) && Inv(m, 0, 0) && NoProjectile(m.bodies) && Ids(m.bodies) == Ids(w.bodies)
            && (Named(w.bodies) ==> Named(m.bodies))
  {
    var m := MoveTo(w, c, x, y);
    IdsSame(w.bodies, m.bodies);
    AtRestFits(m, 0);
  }

  /** After a move everything is at rest again, and the terrain is as it was. */
  lemma MoveMeaning(w: World, c: nat, x: int, y: int)
    requires AtRest(w) && c < |w.bodies| && w.bodies[c].kind.Lombric? && Settles(MoveTo(w, c, x, y), 0)
    ensures var r := Settle(MoveTo(w, c, x, y), 0);
            && Playable(r) && Quiescent(r) && (Named(w.bodies) ==> Named(r.bodies))
            && r.grid == w.grid && r.deleted == w.deleted && Ids(r.bodies) <= Ids(w.bodies)
  {
    hide Settle, Settles, Inv, Playable, Quiescent, Named, NoProjectile, AtRest, Reported, AllOnAir;
    MovedAtRest(w, c, x, y);
    SettleIsPlayable(MoveTo(w, c, x, y));
  }

  // ---------------------------------------------------------------- when a walk ends the turn

  predicate OnlyWorms(bodies: seq<Body>) {
    forall i :: 0 <= i < |bodies| ==> bodies[i].kind.Lombric? && bodies[i].life >= 0
  }

  /** The life of all worms with an id. */
  function TotalLife(bodies: seq<Body>): nat {
    if bodies == [] then 0
    else (if bodies[0].id != 0 && bodies[0].life > 0 then bodies[0].life else 0) + TotalLife(bodies[1..])
  }

  lemma {:induction false} TotalSame(a: seq<Body>, b: seq<Body>)
    requires |a| == |b| && forall i :: 0 <= i < |a| ==> a[i].id == b[i].id && a[i].life == b[i].life
    ensures TotalLife(a) == TotalLife(b)
  {
    if a != [] {
      TotalSame(a[1..], b[1..]);
    }
  }

  lemma {:induction false} TotalHurt(bodies: seq<Body>, k: nat, b: Body)
    requires OnlyWorms(bodies) && k < |bodies| && b.id == bodies[k].id && 0 <= b.life <= bodies[k].life
    ensures TotalLife(bodies[k := b]) <= TotalLife(bodies)
    ensures TotalLife(bodies[k := b]) < TotalLife(bodies) <==> b.id != 0 && b.life != bodies[k].life
  {
    if k > 0 {
      assert bodies[k := b][1..] == bodies[1..][k - 1 := b];
      TotalHurt(bodies[1..], k - 1, b);
    } else {
      assert bodies[k := b][1..] == bodies[1..];
    }
  }

  lemma {:induction false} TotalErased(bodies: seq<Body>, k: nat)
    requires k < |bodies| && bodies[k].life == 0
    ensures TotalLife(Erase(bodies, k)) == TotalLife(bodies)
  {
    if k > 0 {
      assert Erase(bodies, k)[1..] == Erase(bodies[1..], k - 1);
      TotalErased(bodies[1..], k - 1);
    } else {
      assert Erase(bodies, k) == bodies[1..];
    }
  }

  /** Life is only lost, and the turn is over if it was, or if some is. */
  predicate HurtEnds(w: World, w': World) {
    && OnlyWorms(w'.bodies) && TotalLife(w'.bodies) <= TotalLife(w.bodies)
    && (w'.turnOver <==> w.turnOver || TotalLife(w'.bodies) < TotalLife(w.bodies))
  }

  lemma StepHurtEnds(w: World, k: nat, t: int)
    requires OnlyWorms(w.bodies) && k < |w.bodies|
    ensures HurtEnds(w, StepAt(w, k, t).world)
  {
    hide WormUpdate, TotalLife;
    var b' := WormUpdate(w.grid, w.bodies[k], t);
    UpdateOnlyHurts(w.grid, w.bodies[k], t);
    TotalHurt(w.bodies, k, b');
    if b'.life == 0 {
      TotalErased(w.bodies[k := b'], k);
    }
  }

  lemma UpdateOnlyHurts(g: Grid, b: Body, t: int)
    requires b.kind.Lombric? && b.life >= 0
    ensures var b' := WormUpdate(g, b, t);
            b'.kind == b.kind && b'.id == b.id && 0 <= b'.life <= b.life
  {
    hide XAt, YAt, SpeedYAt, Drowned;
  }

  lemma {:induction false} PassHurtEnds(w: World, k: nat, t: int, moving: bool)
    requires OnlyWorms(w.bodies) && k <= |w.bodies|
    ensures HurtEnds(w, PassFrom(w, k, t, moving).0)
    decreases |w.bodies| - k
  {
    hide StepAt, TotalLife, OnlyWorms;
    if k < |w.bodies| {
      StepHurtEnds(w, k, t);
      var o := StepAt(w, k, t);
      PassHurtEnds(o.world, NextIndex(o, k), t, moving || o.moving);
    }
  }

  lemma {:induction false} SettleHurtEnds(w: World, t: int)
    requires OnlyWorms(w.bodies) && Settles(w, t)
    ensures HurtEnds(w, Settle(w, t))
    decreases Passes(w, t)
  {
    hide PassFrom, TotalLife, OnlyWorms, Settles, Settle;
    SettlesStep(w, t);
    PassHurtEnds(w, 0, t, false);
    var (w', moving) := Pass(w, t);
    if moving {
      SettleHurtEnds(w', t + TICK);
    }
  }

  /** Without boxes on the map, a walk ends the turn if and only if it cost worms with an id life. */
  lemma WalkEndsTurnIff(w: World, c: nat, x: int, y: int)
    requires OnlyWorms(w.bodies) && !w.turnOver && c < |w.bodies| && Settles(MoveTo(w, c, x, y), 0)
    ensures var r := Settle(MoveTo(w, c, x, y), 0);
            && TotalLife(r.bodies) <= TotalLife(w.bodies)
            && (r.turnOver <==> TotalLife(r.bodies) < TotalLife(w.bodies))
  {
    hide Settles, Settle, TotalLife;
    TotalSame(w.bodies, MoveTo(w, c, x, y).bodies);
    SettleHurtEnds(MoveTo(w, c, x, y), 0);
  }
}
