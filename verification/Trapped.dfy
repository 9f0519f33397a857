/** Exactly when Partie::update (Server/src/partie_serv.cpp) returns: a worm that hangs in a wall keeps its
    loop going for ever, and nothing else does. */
module Trapped {
  import opened Physics
  import opened Terrain
  import opened Arena
  import opened Settling
  import opened Quiescence

  // ---------------------------------------------------------------- a hanging worm, without missiles

  /** Where the sprite at index i is after the iteration for the sprite at k. */
  function IndexAfter(o: Outcome, k: nat, i: nat): int {
    if !o.alive && i > k then i - 1 else i
  }

  lemma ErasedAt(bodies: seq<Body>, k: nat)
    requires k < |bodies|
    ensures forall i :: 0 <= i < |bodies| - 1 ==> Erase(bodies, k)[i] == bodies[if i < k then i else i + 1]
  {
  }

  /** An iteration for a worm or a box: its update, and its removal if it is dead. */
  lemma OutcomeIs(w: World, k: nat, t: int)
    requires k < |w.bodies| && !w.bodies[k].kind.Projectile? && UpdateAt(w, k, t).0.bodies[k].kind == w.bodies[k].kind
    ensures var o, (u, alive) := StepAt(w, k, t), UpdateAt(w, k, t);
            && o.alive == alive && o.world.grid == u.grid
            && o.world.bodies == if alive then u.bodies else Erase(u.bodies, k)
  {
    hide UpdateAt;
  }

  lemma UpdateOthers(w: World, k: nat, t: int, i: nat)
    requires Inv(w, k, t) && k < |w.bodies| && !w.bodies[k].kind.Projectile?
    requires i < |w.bodies| && i != k && !OnAir(w.grid, w.bodies[i])
    ensures var (u, _) := UpdateAt(w, k, t);
            u.grid == w.grid && u.bodies[k].kind == w.bodies[k].kind && u.bodies[i] == w.bodies[i]
  {
    hide BoxMove, BoxLost, Effort, Synced;
    if w.bodies[k].kind.Box? {
      BoxStep(w.grid, w.bodies[k], t);
    }
  }

  /** The update of a worm or a box leaves every other sprite in a wall as it is. */
  lemma OthersStay(w: World, k: nat, t: int, i: nat)
    requires Inv(w, k, t) && k < |w.bodies| && !w.bodies[k].kind.Projectile?
    requires i < |w.bodies| && i != k && !OnAir(w.grid, w.bodies[i])
    ensures var o := StepAt(w, k, t);
            o.world.grid == w.grid && 0 <= IndexAfter(o, k, i) < |o.world.bodies| && o.world.bodies[IndexAfter(o, k, i)] == w.bodies[i]
  {
    hide StepAt, UpdateAt, Fit, Inv, OnAir;
    UpdateOthers(w, k, t, i);
    OutcomeIs(w, k, t);
    ErasedAt(UpdateAt(w, k, t).0.bodies, k);
  }

  /** No projectile, and a worm hanging at index i. */
  ghost predicate HangsAt(w: World, k: nat, t: int, i: nat) {
    && Inv(w, k, t) && NoProjectile(w.bodies)
    && i < |w.bodies| && Hanging(w.grid, w.bodies[i], Due(k, t, i))
  }

  /** After one iteration of a pass the worm still hangs; if it was its turn, it is moving. */
  lemma HangingStep(w: World, k: nat, t: int, i: nat) returns (i': nat)
    requires HangsAt(w, k, t, i) && k < |w.bodies|
    ensures var o := StepAt(w, k, t);
            && HangsAt(o.world, NextIndex(o, k), t, i')
            && (i' < NextIndex(o, k) ==> i < k || o.moving)
  {
    hide WormUpdate, BoxMove, BoxLost, UpdateAt, Fit, Reported;
    var o := StepAt(w, k, t);
    StepProgress(w, k, t);
    StepEvolves(w, k, t);
    if i == k {
      HangingTurn(w, k, t);
      i' := k;
    } else {
      OthersStay(w, k, t, i);
      i' := IndexAfter(o, k, i);
    }
  }

  lemma HangingTurn(w: World, k: nat, t: int)
    requires Inv(w, k, t) && k < |w.bodies| && Hanging(w.grid, w.bodies[k], t)
    ensures var o := StepAt(w, k, t);
            o.alive && o.moving && o.world.grid == w.grid && Hanging(w.grid, o.world.bodies[k], t + TICK)
  {
    hide WormUpdate;
    WalledStep(w.grid, w.bodies[k], t);
  }

  lemma {:induction false} HangingPass(w: World, k: nat, t: int, moving: bool, i: nat) returns (i': nat)
    requires HangsAt(w, k, t, i) && k <= |w.bodies|
    requires i < k ==> moving
    ensures var (w', moving') := PassFrom(w, k, t, moving);
            moving' && HangsAt(w', 0, t + TICK, i')
    decreases |w.bodies| - k
  {
    hide StepAt, Hanging, Fit;
    if k == |w.bodies| {
      i' := i;
    } else {
      var o := StepAt(w, k, t);
      var j := HangingStep(w, k, t, i);
      i' := HangingPass(o.world, NextIndex(o, k), t, moving || o.moving, j);
    }
  }

  /** With a hanging worm no pass is the last one. */
  lemma {:induction false} HangsForever(w: World, t: int, i: nat, n: nat)
    requires HangsAt(w, 0, t, i)
    ensures !Returns(w, t, n)
    decreases n
  {
    hide PassFrom, HangsAt;
    var j := HangingPass(w, 0, t, false, i);
    if n > 0 {
      HangsForever(Pass(w, t).0, t + TICK, j, n - 1);
    }
  }

  /** Without a missile update returns if and only if no worm hangs in a wall; sprites may be in flight. */
  lemma UpdateReturnsIff(w: World, t: int)
    requires Inv(w, 0, t) && NoProjectile(w.bodies)
    ensures Settles(w, t) <==> NoneHangs(w, 0, t)
  {
    if NoneHangs(w, 0, t) {
      CalmSettles(w, t);
    } else {
      var i :| 0 <= i < |w.bodies| && Hanging(w.grid, w.bodies[i], Due(0, t, i));
      forall n: nat
        ensures !Returns(w, t, n)
      {
        HangsForever(w, t, i, n);
      }
    }
  }

  // ---------------------------------------------------------------- missiles land

  /** Every projectile has fewer than bound ticks to fly; those below index k have flown the present one. */
  predicate Airborne(w: World, k: nat, t: int, bound: int) {
    forall i :: 0 <= i < |w.bodies| && w.bodies[i].kind.Projectile? ==> Flies(w.grid, w.bodies[i], Due(k, t, i), if i < k then bound - 1 else bound)
  }

  predicate Flies(g: Grid, b: Body, t: int, bound: int) {
    b.motion.Some? && b.motion.value.gravity > 0 && Left(g, b.motion.value, t) < bound
  }

  /** What an iteration leaves of the other projectiles. */
  lemma OtherMissilesFly(w: World, k: nat, t: int, i: nat)
    requires k < |w.bodies|
    ensures var o := StepAt(w, k, t);
            && o.world.grid.height == w.grid.height
            && (i < |o.world.bodies| && o.world.bodies[i].kind.Projectile? ==>
                  var j := if o.alive || i < k then i else i + 1;
                  j < |w.bodies| && (o.world.bodies[i] == w.bodies[j] || (o.alive && i == k && w.bodies[k].kind.Projectile?)))
  {
    hide UpdateAt, DeathAt;
    var (u, alive) := UpdateAt(w, k, t);
    UpdateOtherMissiles(w, k, t);
    if !alive {
      var v := u.(turnOver := u.turnOver || (w.bodies[k].id != 0 && u.bodies[k].life != w.bodies[k].life));
      DeathOtherMissiles(v, k, t);
      ErasedAt(DeathAt(v, k, t).bodies, k);
    }
  }

  lemma UpdateOtherMissiles(w: World, k: nat, t: int)
    requires k < |w.bodies|
    ensures var u := UpdateAt(w, k, t).0;
            && u.grid == w.grid
            && forall j :: 0 <= j < |w.bodies| && u.bodies[j].kind.Projectile? ==>
                 w.bodies[j].kind.Projectile? && (j != k ==> u.bodies[j] == w.bodies[j])
  {
  }

  lemma DeathOtherMissiles(u: World, k: nat, t: int)
    requires k < |u.bodies|
    ensures var d := DeathAt(u, k, t);
            && d.grid.height == u.grid.height
            && forall j :: 0 <= j < |u.bodies| && d.bodies[j].kind.Projectile? ==> d.bodies[j] == u.bodies[j]
  {
    hide Crater, Blast, Falloff, Quotient;
  }

  lemma AirborneStep(w: World, k: nat, t: int, bound: int)
    requires Inv(w, k, t) && k < |w.bodies| && Airborne(w, k, t, bound)
    ensures var o := StepAt(w, k, t); Airborne(o.world, NextIndex(o, k), t, bound)
  {
    hide StepAt, Hits, Left, Fit;
    var o := StepAt(w, k, t);
    forall i: nat | i < |o.world.bodies| && o.world.bodies[i].kind.Projectile?
      ensures Flies(o.world.grid, o.world.bodies[i], Due(NextIndex(o, k), t, i), if i < NextIndex(o, k) then bound - 1 else bound)
    {
      OtherMissilesFly(w, k, t, i);
      if o.alive && i == k {
        MissileFlies(w, k, t, bound);
      } else {
        SameHeightSameFlight(w.grid, o.world.grid, o.world.bodies[i]);
      }
    }
  }

  lemma MissileFlies(w: World, k: nat, t: int, bound: int)
    requires Inv(w, k, t) && k < |w.bodies|
    ensures var o := StepAt(w, k, t);
            o.alive && o.world.bodies[k].kind.Projectile? && Airborne(w, k, t, bound) ==>
              Flies(o.world.grid, o.world.bodies[k], t + TICK, bound - 1)
  {
    hide WormUpdate, BoxMove, BoxLost, Explosed, Crater, Blast, Fill, Hits, Left;
    var b := w.bodies[k];
    UpdateOtherMissiles(w, k, t);
    if b.kind.Projectile? && !Hits(w.grid, b.motion.value, t) {
      FlightShortens(w.grid, b.motion.value, t);
    }
  }

  lemma SameHeightSameFlight(g: Grid, g': Grid, b: Body)
    requires g.height == g'.height
    ensures forall t, bound :: Flies(g, b, t, bound) <==> Flies(g', b, t, bound)
  {
  }

  lemma {:induction false} AirbornePass(w: World, k: nat, t: int, moving: bool, bound: int)
    requires Inv(w, k, t) && k <= |w.bodies| && Airborne(w, k, t, bound)
    ensures Airborne(PassFrom(w, k, t, moving).0, 0, t + TICK, bound - 1)
    decreases |w.bodies| - k
  {
    hide StepAt, Fit, Flies;
    if k < |w.bodies| {
      var o := StepAt(w, k, t);
      StepProgress(w, k, t);
      AirborneStep(w, k, t, bound);
      AirbornePass(o.world, NextIndex(o, k), t, moving || o.moving, bound);
    }
  }

  /** The ticks after which every missile has landed, from the map's height and the launches alone. */
  function Airtime(g: Grid, bodies: seq<Body>, t: int): nat {
    if bodies == [] then 0
    else
      var rest := Airtime(g, bodies[1..], t);
      var b := bodies[0];
      if b.kind.Projectile? && b.motion.Some? && b.motion.value.gravity > 0 && Left(g, b.motion.value, t) >= rest
      then Left(g, b.motion.value, t) + 1 else rest
  }

  lemma {:induction false} AirtimeBounds(g: Grid, bodies: seq<Body>, t: int)
    ensures forall i :: 0 <= i < |bodies| && bodies[i].kind.Projectile? && bodies[i].motion.Some? && bodies[i].motion.value.gravity > 0 ==>
                          Left(g, bodies[i].motion.value, t) < Airtime(g, bodies, t)
  {
    hide Left;
    if bodies != [] {
      AirtimeBounds(g, bodies[1..], t);
      assert forall i :: 1 <= i < |bodies| ==> bodies[i] == bodies[1..][i - 1];
    }
  }

  /** n passes after which the last missile is gone. */
  predicate Landed(w: World, t: int, n: nat) {
    NoProjectile(After(w, t, n).bodies) && forall m: nat :: m < n ==> !NoProjectile(After(w, t, m).bodies)
  }

  /** The pass after a state with a missile sees movement. */
  lemma MissileMoves(w: World, t: int)
    requires Inv(w, 0, t) && !NoProjectile(w.bodies)
    ensures Pass(w, t).1
  {
    hide PassFrom, Fit;
    InvIsSound(w, 0, t);
    var i :| 0 <= i < |w.bodies| && w.bodies[i].kind.Projectile?;
    if !Pass(w, t).1 {
      QuietPass(w, 0, t, false);
      SameKinds(Pass(w, t).0.bodies, w.bodies);
    }
  }

  lemma SameKinds(a: seq<Body>, b: seq<Body>)
    requires SamePlaces(a, b)
    ensures forall i :: 0 <= i < |b| ==> a[i].kind == b[i].kind
  {
  }

  lemma {:induction false} MissilesLand(w: World, t: int, bound: nat) returns (n: nat)
    requires Inv(w, 0, t) && Airborne(w, 0, t, bound)
    ensures n <= bound && Landed(w, t, n)
    ensures Inv(After(w, t, n), 0, t + 25 * n)
    ensures Settles(w, t) <==> Settles(After(w, t, n), t + 25 * n)
    decreases bound
  {
    hide PassFrom, Settles, Fit, Flies;
    if NoProjectile(w.bodies) {
      n := 0;
    } else {
      NotYet(w, t, bound);
      MissileMoves(w, t);
      SettlesStep(w, t);
      WholePass(w, t);
      AirbornePass(w, 0, t, false, bound);
      n := MissilesLand(Pass(w, t).0, t + TICK, bound - 1);
      LandedLater(w, t, n);
      n := n + 1;
    }
  }

  lemma NotYet(w: World, t: int, bound: nat)
    requires Airborne(w, 0, t, bound) && !NoProjectile(w.bodies)
    ensures bound > 0
  {
  }

  lemma LandedLater(w: World, t: int, n: nat)
    requires Landed(Pass(w, t).0, t + TICK, n) && !NoProjectile(w.bodies)
    ensures Landed(w, t, n + 1)
  {
    hide Pass, NoProjectile;
    forall m: nat | m < n + 1
      ensures !NoProjectile(After(w, t, m).bodies)
    {
      if m > 0 {
        assert After(w, t, m) == After(Pass(w, t).0, t + TICK, m - 1);
      }
    }
  }

  /** From every state, whatever is in flight and wherever the worms are: the missiles are gone after a
      number of passes that the launches bound, and update returns if and only if no worm hangs then. */
  lemma FlightReturnsIff(w: World, t: int) returns (n: nat)
    requires Inv(w, 0, t)
    ensures n <= Airtime(w.grid, w.bodies, t) && Landed(w, t, n)
    ensures Settles(w, t) <==> NoneHangs(After(w, t, n), 0, t + 25 * n)
  {
    hide Left, After, Settles, NoneHangs, Landing;
    AirtimeBounds(w.grid, w.bodies, t);
    assert Airborne(w, 0, t, Airtime(w.grid, w.bodies, t));
    n := MissilesLand(w, t, Airtime(w.grid, w.bodies, t));
    UpdateReturnsIff(After(w, t, n), t + 25 * n);
  }
}
