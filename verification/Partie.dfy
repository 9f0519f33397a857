/** The server's mutable game world: the sprites (sharedFiles/src/sprite.cpp, lombric.cpp,
    projectile.cpp, healthBox.cpp), and Partie, which updates them in place (Server/src/partie_serv.cpp). */
module PartieServ {
  import opened Options
  import opened Physics
  import opened Terrain
  import opened Arena
  import opened Quiescence
  import opened Turns

  class Sprite {
    const id: nat
    const kind: Kind
    var posX: int
    var posY: int
    var movement: Option<Motion>
    var vie: int

    function View(): Body
      reads this
    {
      Body(id, kind, posX, posY, movement, vie)
    }

    constructor (b: Body)
      ensures View() == b
    {
      id, kind, posX, posY, movement, vie := b.id, b.kind, b.x, b.y, b.motion, b.life;
    }

    method SetMovement(vx: real, vy: real, gravity: int, t: int)
      modifies this`movement
      ensures View() == Launch(old(View()), vx, vy, gravity, t)
    {
      if movement.Some? {
        DeleteMovement();
      }
      movement := Some(Motion(posX, posY, vx, vy, gravity, t));
    }

    method DeleteMovement()
      modifies this`movement
      ensures View() == old(View()).(motion := None)
    {
      movement := None;
    }

    method GainLife(n: int)
      requires kind.Lombric?
      modifies this`vie
      ensures View() == AddLife(old(View()), n)
    {
      vie := vie + n;
      if vie > kind.maxLife {
        vie := kind.maxLife;
      }
    }

    /** Lombric_c::update. */
    method UpdateLombric(carte: GameMap, t: int) returns (alive: bool)
      requires carte.Valid() && kind.Lombric?
      modifies this
      ensures View() == WormUpdate(carte.View(), old(View()), t)
      ensures alive == (vie != 0)
    {
      if movement.Some? {
        var m := movement.value;
        var newX, newY := XAt(m, t), YAt(m, t);
        if !Is(carte.View(), newX, newY, AIR) {
          var impactSpeed := SpeedYAt(m, t);
          DeleteMovement();
          if impactSpeed >= FALL_DAMAGE_SPEED {
            vie := Truncate(vie as real - impactSpeed);
          }
        } else {
          var below := newY > carte.height;
          vie := if below then 0 else vie;
          posX, posY := if below then posX else newX, if below then posY else newY;
        }
      }
      if movement.None? && Is(carte.View(), posX, posY + 1, AIR) {
        SetMovement(0.0, 0.0, GRAVITY, t);
      }
      if Drowned(carte.View(), posY) {
        vie := 0;
      }
      if vie < 0 {
        vie := 0;
      }
      alive := vie != 0;
    }

    /** Projectile_c::update. */
    method UpdateProjectile(carte: GameMap, t: int) returns (alive: bool)
      requires carte.Valid() && kind.Projectile?
      modifies this
      ensures alive == !(old(movement).Some? && Hits(carte.View(), old(movement).value, t))
      ensures !alive ==> View() == old(View()).(motion := None)
      ensures alive ==> View() == if old(movement).None? then old(View())
                                  else old(View()).(x := XAt(old(movement).value, t), y := YAt(old(movement).value, t))
    {
      alive := true;
      if movement.Some? {
        var m := movement.value;
        if !Is(carte.View(), XAt(m, t), YAt(m, t), AIR) {
          DeleteMovement();
          alive := false;
        } else {
          posX, posY := XAt(m, t), YAt(m, t);
        }
      }
    }

    /** The part of HealthBox::update that moves the box; the flag says that it left the map. */
    method MoveBox(carte: GameMap, t: int) returns (lost: bool)
      requires carte.Valid() && kind.Box?
      modifies this
      ensures lost == BoxLost(carte.View(), old(View()), t)
      ensures View() == if lost then old(View()) else BoxMove(carte.View(), old(View()), t)
    {
      lost := false;
      if movement.Some? {
        var m := movement.value;
        if !Is(carte.View(), XAt(m, t), YAt(m, t), AIR) {
          DeleteMovement();
        } else if YAt(m, t) > carte.height {
          return true;
        } else {
          posX, posY := XAt(m, t), YAt(m, t);
        }
      }
      if movement.None? && Is(carte.View(), posX, posY + 1, AIR) {
        SetMovement(0.0, 0.0, BOX_GRAVITY, t);
      }
    }

    /** Lombric_c::explosed, for the speed every projectile uses. */
    method Explode(cx: int, cy: int, radius: Radius, damage: int, t: int)
      requires kind.Lombric?
      modifies this
      ensures View() == Explosed(old(View()), cx, cy, radius, damage, t)
    {
      var dist2 := (posX - cx) * (posX - cx) + (posY - cy) * (posY - cy);
      if dist2 <= radius * radius {
        GainLife(Falloff(damage, radius, dist2));
        SetMovement(Quotient(BLAST_SPEED * (posX - cx), radius) as real,
                    Quotient(BLAST_SPEED * (posY - cy), radius) as real, GRAVITY, t);
      }
    }
  }

  function Views(sprites: seq<Sprite>): (r: seq<Body>)
    reads sprites
    ensures |r| == |sprites|
    ensures forall i :: 0 <= i < |r| ==> r[i] == sprites[i].View()
  {
    if sprites == [] then [] else [sprites[0].View()] + Views(sprites[1..])
  }

  predicate Among(few: seq<Sprite>, all: seq<Sprite>) {
    forall i :: 0 <= i < |few| ==> few[i] in all
  }

  lemma AmongItself(all: seq<Sprite>)
    ensures Among(all, all)
  {
  }

  lemma NotAmong(few: seq<Sprite>, all: seq<Sprite>, s: Sprite)
    requires Among(few, all) && s !in all
    ensures s !in few
  {
  }

  class Partie {
    const carte: GameMap
    var sprites: seq<Sprite>
    var blockDeleted: seq<int>
    var endTour: bool
    var animationTime: int
    var currentWorms: Sprite?

    ghost predicate Valid()
      reads this, carte, sprites
    {
      carte.Valid() && forall i, j :: 0 <= i < j < |sprites| ==> sprites[i] != sprites[j]
    }

    function View(): World
      requires Valid()
      reads this, carte, sprites
    {
      World(carte.View(), Views(sprites), blockDeleted, endTour)
    }

    constructor (m: GameMap, lombs: seq<Sprite>)
      requires m.Valid() && forall i, j :: 0 <= i < j < |lombs| ==> lombs[i] != lombs[j]
      ensures Valid() && View() == World(m.View(), Views(lombs), [], false)
    {
      carte, sprites, blockDeleted, endTour, animationTime, currentWorms := m, lombs, [], false, 0, null;
    }

    /** Sprite::update of the sprite at index k. */
    method UpdateSprite(k: nat, t: int) returns (alive: bool)
      requires Valid() && k < |sprites|
      modifies sprites
      ensures Valid() && View() == UpdateAt(old(View()), k, t).0
      ensures alive == UpdateAt(old(View()), k, t).1
    {
      hide UpdateAt, Views;
      match sprites[k].kind {
        case Lombric(_) => alive := UpdateLombricAt(k, t);
        case Projectile(_, _) => alive := UpdateProjectileAt(k, t);
        case Box(health) => alive := UpdateBoxAt(k, t);
      }
    }

    method UpdateLombricAt(k: nat, t: int) returns (alive: bool)
      requires Valid() && k < |sprites| && sprites[k].kind.Lombric?
      modifies sprites
      ensures Valid() && View() == UpdateAt(old(View()), k, t).0
      ensures alive == UpdateAt(old(View()), k, t).1
    {
      hide WormUpdate, Views;
      ghost var bodies := Views(sprites);
      alive := sprites[k].UpdateLombric(carte, t);
      OneChanged(bodies, k);
    }

    method UpdateProjectileAt(k: nat, t: int) returns (alive: bool)
      requires Valid() && k < |sprites| && sprites[k].kind.Projectile?
      modifies sprites
      ensures Valid() && View() == UpdateAt(old(View()), k, t).0
      ensures alive == UpdateAt(old(View()), k, t).1
    {
      hide Hits, Views;
      ghost var bodies := Views(sprites);
      alive := sprites[k].UpdateProjectile(carte, t);
      OneChanged(bodies, k);
      assert bodies[k := bodies[k]] == bodies;
    }

    method UpdateBoxAt(k: nat, t: int) returns (alive: bool)
      requires Valid() && k < |sprites| && sprites[k].kind.Box?
      modifies sprites
      ensures Valid() && View() == UpdateAt(old(View()), k, t).0
      ensures alive == UpdateAt(old(View()), k, t).1
    {
      hide BoxMove, BoxLost, Views;
      ghost var bodies := Views(sprites);
      var s := sprites[k];
      var lost := s.MoveBox(carte, t);
      OneChanged(bodies, k);
      if lost {
        assert bodies[k := bodies[k]] == bodies;
        return false;
      }
      alive := HealFirst(s.posX, s.posY, s.kind.health);
    }

    /** If only the sprite at index k differs from the given bodies, the bodies differ only there. */
    lemma OneChanged(bodies: seq<Body>, k: nat)
      requires |bodies| == |sprites| && k < |sprites|
      requires forall i :: 0 <= i < |sprites| && i != k ==> sprites[i].View() == bodies[i]
      ensures Views(sprites) == bodies[k := sprites[k].View()]
    {
    }

    /** The loop of HealthBox::update: the first worm on the cell gains life and uses the box up. */
    method HealFirst(x: int, y: int, health: int) returns (alive: bool)
      requires Valid()
      modifies sprites
      ensures Valid()
      ensures var bodies := old(Views(sprites));
              var j := FirstWormAt(bodies, x, y);
              && alive == (j == |bodies|)
              && Views(sprites) == if alive then bodies else bodies[j := AddLife(bodies[j], health)]
    {
      hide Views, FirstWormAt;
      var i := 0;
      while i < |sprites|
        invariant 0 <= i <= |sprites|
        invariant Views(sprites) == old(Views(sprites))
        invariant forall k :: 0 <= k < i ==> !(IsWorm(Views(sprites)[k]) && sprites[k].posX == x && sprites[k].posY == y)
      {
        var s := sprites[i];
        if s.id != 0 && s.kind.Lombric? && s.posX == x && s.posY == y {
          assert FirstWormAt(Views(sprites), x, y) == i;
          s.GainLife(health);
          OneChanged(old(Views(sprites)), i);
          return false;
        }
        i := i + 1;
      }
      return true;
    }

    /** deathMove of the sprite at index k, and addDeletedBlock of what it returns. */
    method DeathMove(k: nat, t: int)
      requires Valid() && k < |sprites|
      modifies this`blockDeleted, carte, sprites
      ensures Valid() && View() == DeathAt(old(View()), k, t)
    {
      hide Views, ExplosedAll, Explosed, Fill, Crater, Blast;
      var s := sprites[k];
      if s.kind.Projectile? {
        var destroyed := carte.Explose(s.posX, s.posY, s.kind.radius);
        ExplodeAll(s.posX, s.posY, s.kind.radius, s.kind.damage, t);
        blockDeleted := blockDeleted + destroyed;
      }
    }

    method ExplodeAll(cx: int, cy: int, radius: Radius, damage: int, t: int)
      requires Valid()
      modifies sprites
      ensures Valid() && Views(sprites) == ExplosedAll(old(Views(sprites)), cx, cy, radius, damage, t)
    {
      var i := 0;
      while i < |sprites|
        invariant 0 <= i <= |sprites|
        invariant forall k :: 0 <= k < |sprites| ==>
          sprites[k].View() == if k < i && IsWorm(old(sprites[k].View()))
                               then Explosed(old(sprites[k].View()), cx, cy, radius, damage, t)
                               else old(sprites[k].View())
      {
        if sprites[i].id != 0 && sprites[i].kind.Lombric? {
          sprites[i].Explode(cx, cy, radius, damage, t);
        }
        i := i + 1;
      }
    }

    /** The update of the sprite at index k, which ends the turn if it changes the life of a worm. */
    method UpdateWatched(k: nat, t: int) returns (alive: bool, moving: bool)
      requires Valid() && k < |sprites|
      modifies this`endTour, sprites
      ensures Valid()
      ensures var w := old(View());
              var u := UpdateAt(w, k, t).0;
              && View() == u.(turnOver := u.turnOver || (w.bodies[k].id != 0 && u.bodies[k].life != w.bodies[k].life))
              && alive == UpdateAt(w, k, t).1 && moving == u.bodies[k].motion.Some?
    {
      hide UpdateAt, Views;
      var s := sprites[k];
      var life := s.vie;
      alive := UpdateSprite(k, t);
      if s.id != 0 && s.vie != life {
        endTour := true;
      }
      moving := s.movement.Some?;
    }

    /** A dead sprite's last action, and its removal from the vector. */
    method Bury(k: nat, t: int)
      requires Valid() && k < |sprites|
      modifies this, carte, sprites
      ensures Valid()
      ensures var d := DeathAt(old(View()), k, t); View() == d.(bodies := Erase(d.bodies, k))
      ensures sprites == old(sprites[..k] + sprites[k + 1..])
    {
      hide DeathAt, Views;
      DeathMove(k, t);
      ghost var bodies := Views(sprites);
      sprites := sprites[..k] + sprites[k + 1..];
      assert Views(sprites) == Erase(bodies, k);
    }

    /** One iteration of the loop of updateSprites, for the sprite at index k; all the sprites are in the
        list given. */
    method UpdateOrErase(k: nat, t: int, ghost all: seq<Sprite>) returns (alive: bool, moving: bool)
      requires Valid() && k < |sprites| && Among(sprites, all)
      modifies this, carte, all
      ensures Valid() && Among(sprites, all) && View() == StepAt(old(View()), k, t).world
      ensures alive == StepAt(old(View()), k, t).alive && moving == StepAt(old(View()), k, t).moving
      ensures |sprites| == if alive then old(|sprites|) else old(|sprites|) - 1
    {
      hide UpdateAt, DeathAt, Erase, Views;
      alive, moving := UpdateWatched(k, t);
      if !alive {
        moving := true;
        Bury(k, t);
      }
    }

    /** updateSprites: every sprite in turn, dead ones are erased from the vector on the way. */
    method UpdateSprites(t: int, ghost all: seq<Sprite>) returns (isMovement: bool)
      requires Valid() && Among(sprites, all)
      modifies this, carte, all
      ensures Valid() && Among(sprites, all) && View() == Pass(old(View()), t).0 && isMovement == Pass(old(View()), t).1
    {
      hide StepAt, Views, PassFrom, Among;
      isMovement := false;
      var k := 0;
      while k < |sprites|
        invariant Valid() && k <= |sprites| && Among(sprites, all)
        invariant PassFrom(View(), k, t, isMovement) == Pass(old(View()), t)
        decreases |sprites| - k
      {
        PassFromStep(View(), k, t, isMovement);
        var alive, moving := UpdateOrErase(k, t, all);
        isMovement := isMovement || moving;
        if alive {
          k := k + 1;
        }
      }
      PassFromEnd(View(), t, isMovement);
    }

    /** update, from any state from which its loop returns. */
    method Update()
      requires Valid() && Settles(View(), 0)
      modifies this, carte, sprites
      ensures Valid() && View() == Settle(old(View()), 0)
      ensures Sound(old(View()).bodies) ==> Quiescent(View())
      ensures animationTime == 25 * (Passes(old(View()), 0) + 1)
      ensures Among(sprites, old(sprites))
    {
      hide Among, Pass, Quiescent, Sound, Settles, Settle, Passes, Views;
      AmongItself(sprites);
      ghost var w, n, all := View(), Passes(View(), 0), sprites;
      SoundSettles(w);
      var t := 0;
      var run := true;
      while run
        invariant Valid() && Among(sprites, all) && 0 <= n
        invariant run ==> Settles(View(), t) && Settle(View(), t) == Settle(w, 0) && n == Passes(View(), t)
        invariant !run ==> View() == Settle(w, 0) && n == 0
        invariant t + 25 * n == 25 * Passes(w, 0) + if run then 0 else 25
        decreases run, n
      {
        SettlesStep(View(), t);
        run := UpdateSprites(t, all);
        t := t + TICK;
        n := if run then n - 1 else 0;
      }
      animationTime := t;
    }

    lemma SoundSettles(w: World)
      requires Settles(w, 0)
      ensures Sound(w.bodies) ==> Quiescent(Settle(w, 0))
    {
      hide *;
      if Sound(w.bodies) {
        SettleIsQuiescent(w, 0);
      }
    }

    /** moveCurrentLombric, for a move after which update returns. */
    method MoveCurrentLombric(id: nat, x: int, y: int) returns (accepted: bool)
      requires Valid() && (CanMove(View(), id, x, y) ==> Settles(MoveTo(View(), FindById(View().bodies, id), x, y), 0))
      modifies this, carte, sprites
      ensures Valid() && accepted == CanMove(old(View()), id, x, y)
      ensures View() == if accepted then Settle(MoveTo(old(View()), FindById(old(View()).bodies, id), x, y), 0) else old(View())
    {
      hide Views, Settles, Settle, Quiescent, Sound;
      ghost var w := View();
      var c := 0;
      while c < |sprites| && sprites[c].id != id
        invariant 0 <= c <= |sprites| && View() == w && Valid()
        invariant forall k :: 0 <= k < c ==> w.bodies[k].id != id
      {
        c := c + 1;
      }
      assert FindById(w.bodies, id) == c;
      if c == |sprites| || !sprites[c].kind.Lombric? {
        return false;
      }
      var s := sprites[c];
      if s.posX != x - 1 && s.posX != x - 1 {
        return false;
      }
      if s.posY != y && s.posY - 1 != y {
        return false;
      }
      s.posX, s.posY := x, y;
      OneChanged(w.bodies, c);
      Update();
      accepted := true;
    }

    /** setCurrentLomb, with findById: a new turn begins. */
    method SetCurrentLomb(id: nat)
      requires Valid()
      modifies this`endTour, this`currentWorms
      ensures Valid() && View() == old(View()).(turnOver := false)
      ensures var i := FindById(View().bodies, id);
              currentWorms == if i < |sprites| && sprites[i].kind.Lombric? then sprites[i] else null
    {
      hide Views;
      endTour := false;
      currentWorms := null;
      var i := 0;
      while i < |sprites|
        invariant 0 <= i <= |sprites| && currentWorms == null
        invariant forall k :: 0 <= k < i ==> View().bodies[k].id != id
      {
        if sprites[i].id == id {
          assert FindById(View().bodies, id) == i;
          if sprites[i].kind.Lombric? {
            currentWorms := sprites[i];
          }
          return;
        }
        i := i + 1;
      }
    }

    method AddHealthBox(box: Sprite)
      requires Valid() && box !in sprites
      modifies this`sprites
      ensures Valid() && View() == old(View()).(bodies := old(View()).bodies + [box.View()])
      ensures sprites == old(sprites) + [box]
    {
      sprites := sprites + [box];
      assert Views(sprites) == old(Views(sprites)) + [box.View()];
    }

    /** LanceMissile::shoot, with the shooting worm at index c. */
    method ShootMissile(s: Sprite, ghost c: nat, vx: real, vy: real)
      requires Valid() && c < |sprites| && sprites[c] == s
      modifies this`sprites
      ensures Valid() && View() == Shoot(old(View()), c, LanceMissile, vx, vy)
      ensures forall s :: s in sprites ==> s in old(sprites) || fresh(s)
    {
      hide Views;
      ghost var bodies := Views(sprites);
      var p := new Sprite(Body(0, Projectile(MISSILE_RADIUS, WEAPON_DAMAGE), s.posX, s.posY - 1, None, 0));
      p.SetMovement(vx, vy, GRAVITY, 0);
      sprites := sprites + [p];
      assert Views(sprites) == bodies + [p.View()];
    }

    /** BatteBaseball::shoot, with the shooting worm at index c. */
    method SwingBat(shooter: Sprite, ghost c: nat, vx: real, vy: real)
      requires Valid() && c < |sprites| && sprites[c] == shooter
      modifies sprites
      ensures Valid() && View() == Shoot(old(View()), c, BatteBaseball, vx, vy)
    {
      hide Views;
      ghost var bodies := Views(sprites);
      var x, y := shooter.posX, shooter.posY;
      var i := 0;
      while i < |sprites|
        invariant 0 <= i <= |sprites|
        invariant forall k :: 0 <= k < |sprites| ==>
          sprites[k].View() == if k < i then BattedAll(bodies, c, vx, vy, 0)[k] else bodies[k]
      {
        var s := sprites[i];
        assert s.View() == bodies[i];
        if s.id != 0 && s.kind.Lombric? && s != shooter && s.posX == x && s.posY == y {
          s.SetMovement(vx, vy, GRAVITY, 0);
          s.GainLife(WEAPON_DAMAGE);
        }
        i := i + 1;
      }
      assert Views(sprites) == BattedAll(bodies, c, vx, vy, 0);
    }

    /** The shot itself. */
    method ShootWeapon(weapon: Weapon, s: Sprite, ghost c: nat, vx: real, vy: real)
      requires Valid() && c < |sprites| && sprites[c] == s
      modifies this`sprites, sprites
      ensures Valid() && View() == Shoot(old(View()), c, weapon, vx, vy)
      ensures forall s :: s in sprites ==> s in old(sprites) || fresh(s)
    {
      hide Views, BattedAll, Missile;
      match weapon {
        case LanceMissile => ShootMissile(s, c, vx, vy);
        case BatteBaseball => SwingBat(s, c, vx, vy);
        case PassTour =>
      }
    }

    /** useWeapon, for a launch speed computed from force and angle, with the current worm at index c, for a
        shot after which update returns: what is left of the world, and the coordinates to be sent. */
    method FireWeapon(weapon: Weapon, ghost c: nat, vx: real, vy: real) returns (destroyed: seq<int>)
      requires Valid() && c < |sprites| && currentWorms == sprites[c]
      requires Settles(Fired(View(), c, weapon, vx, vy), 0)
      modifies this, carte, sprites
      ensures Valid() && View() == UseWeapon(old(View()), c, weapon, vx, vy)
      ensures destroyed == View().deleted
      ensures |destroyed| % 2 == 0 && carte.View() == Fill(old(carte.View()), Cells(destroyed), AIR)
    {
      hide Sound, Quiescent, Settle, Settles, Views, Shoot, Fill;
      ghost var w := View();
      ShotReports(w, c, weapon, vx, vy);
      blockDeleted := [];
      ShootWeapon(weapon, currentWorms, c, vx, vy);
      assert forall i :: 0 <= i < |sprites| ==> sprites[i] in old(sprites) || fresh(sprites[i]);
      assert View() == Fired(w, c, weapon, vx, vy);
      Update();
      destroyed := blockDeleted;
    }

    lemma ShotReports(w: World, c: nat, weapon: Weapon, vx: real, vy: real)
      requires c < |w.bodies| && Settles(Fired(w, c, weapon, vx, vy), 0)
      ensures var w' := UseWeapon(w, c, weapon, vx, vy);
              |w'.deleted| % 2 == 0 && w'.grid == Fill(w.grid, Cells(w'.deleted), AIR)
    {
      hide Settle, Settles, Fill, Reported;
      var s := Fired(w, c, weapon, vx, vy);
      SettleEvolves(s, 0);
      ReportedFromNothing(s, Settle(s, 0));
    }
  }

  lemma PassFromStep(w: World, k: nat, t: int, moving: bool)
    requires k < |w.bodies|
    ensures var o := StepAt(w, k, t);
            PassFrom(w, k, t, moving) == PassFrom(o.world, if o.alive then k + 1 else k, t, moving || o.moving)
  {
    hide StepAt;
  }

  lemma PassFromEnd(w: World, t: int, moving: bool)
    ensures PassFrom(w, |w.bodies|, t, moving) == (w, moving)
  {
  }
}
