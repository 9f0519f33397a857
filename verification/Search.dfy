/** The do..while loop that chooses the next player (Game::end_round in Server/src/game.cpp), on values: when
    it ends, and with what. Worms with id 0 may be alive: they are spawned for the empty slots of players who
    joined before the number of worms was raised, and the loop passes over them. */
module Search {
  import opened Cyclic
  import opened Rotation
  import opened Scheduler

  /** One iteration of the scheduling loop, on values. */
  function TryNext(t: Table, alive: set<nat>): (Table, nat)
    requires t.Valid()
  {
    var c := if t.cur + 1 >= |t.players| then 0 else t.cur + 1;
    var (p, id) := NextOf(t.players, c, alive, t.nb);
    (t.(players := t.players[c := p], cur := c), id)
  }

  /** The id the scheduling loop leaves with. */
  ghost function WormFound(t: Table, alive: set<nat>): nat
    requires t.Valid() && Any(Ready(t, alive), |t.players|)
  {
    NextOf(t.players, Next(Ready(t, alive), |t.players|, t.cur), alive, t.nb).1
  }

  lemma TryNextValid(t: Table, alive: set<nat>)
    requires t.Valid()
    ensures TryNext(t, alive).0.Valid()
  {
    hide SlotAlive;
  }

  /** The table after n iterations of the scheduling loop. */
  function Tried(t: Table, alive: set<nat>, n: nat): (r: Table)
    requires t.Valid()
    ensures r.Valid()
  {
    if n == 0 then t
    else
      var r := Tried(t, alive, n - 1);
      TryNextValid(r, alive);
      TryNext(r, alive).0
  }

  /** Iteration n, counted from 0, is the first that finds a worm. */
  predicate Ends(t: Table, alive: set<nat>, n: nat)
    requires t.Valid()
  {
    TryNext(Tried(t, alive, n), alive).1 != 0 && forall m: nat :: m < n ==> TryNext(Tried(t, alive, m), alive).1 == 0
  }

  /** Iteration n, if it ends the loop, is the only one. */
  lemma EndsOnce(t: Table, alive: set<nat>, m: nat, n: nat)
    requires t.Valid() && Ends(t, alive, m) && Ends(t, alive, n)
    ensures m == n
  {
    hide TryNext, Tried;
  }

  ghost predicate LoopEnds(t: Table, alive: set<nat>)
    requires t.Valid()
  {
    exists n: nat :: Ends(t, alive, n)
  }

  ghost function LastTry(t: Table, alive: set<nat>): (n: nat)
    requires t.Valid() && LoopEnds(t, alive)
    ensures Ends(t, alive, n)
  {
    var n: nat :| Ends(t, alive, n);
    n
  }

  /** The table and the id the loop leaves with. */
  ghost function LoopResult(t: Table, alive: set<nat>): (Table, nat)
    requires t.Valid() && LoopEnds(t, alive)
  {
    TryNext(Tried(t, alive, LastTry(t, alive)), alive)
  }

  lemma TriedNothing(t: Table, alive: set<nat>)
    requires t.Valid()
    ensures Tried(t, alive, 0) == t
  {
  }

  /** Iteration n of a loop that ends. */
  lemma TriedStep(t: Table, alive: set<nat>, n: nat)
    requires t.Valid() && LoopEnds(t, alive) && n <= LastTry(t, alive)
    ensures var (next, id) := TryNext(Tried(t, alive, n), alive);
            if id == 0 then n < LastTry(t, alive) && next == Tried(t, alive, n + 1) else n == LastTry(t, alive)
  {
    hide TryNext;
  }

  /** The first iteration that finds a worm ends the loop. */
  lemma {:induction false} FirstEnds(t: Table, alive: set<nat>, n: nat) returns (m: nat)
    requires t.Valid() && TryNext(Tried(t, alive, n), alive).1 != 0
    ensures m <= n && Ends(t, alive, m)
  {
    hide TryNext, Tried;
    if k: nat :| k < n && TryNext(Tried(t, alive, k), alive).1 != 0 {
      m := FirstEnds(t, alive, k);
    } else {
      m := n;
    }
  }

  /** The id of the current worm of the current player. */
  function WormToPlay(t: Table): nat
    requires t.Valid()
  {
    t.players[t.cur].worms[t.players[t.cur].current]
  }

  /** The loop leaves with the id of the new current worm of the new current player, which lives. */
  lemma ResultIsToPlay(t: Table, alive: set<nat>)
    requires t.Valid() && LoopEnds(t, alive)
    ensures var (r, id) := LoopResult(t, alive); r.Valid() && id == WormToPlay(r) && id != 0 && id in alive
  {
    hide Tried, LoopEnds;
    var n := LastTry(t, alive);
    TryIsToPlay(Tried(t, alive, n), alive);
  }

  lemma TryIsToPlay(t: Table, alive: set<nat>)
    requires t.Valid()
    ensures var (r, id) := TryNext(t, alive); r.Valid() && (id != 0 ==> id == WormToPlay(r) && id in alive)
  {
    hide GetNext, SearchFrom;
    TryNextValid(t, alive);
    var c := if t.cur + 1 >= |t.players| then 0 else t.cur + 1;
    SearchFinds(t.players[c], alive, t.nb);
  }

  // ---------------------------------------------------------------- one player, asked again and again

  /** What one try does to the player it asks. */
  function Asked(p: Player, alive: set<nat>, nb: nat): (r: (Player, nat))
    requires p.Valid() && 0 < nb <= 8
    ensures r.0.Valid() && r.0.team == p.team
  {
    if p.team == 0 then (p, 0) else GetNext(p, alive, nb)
  }

  /** The player after v tries. */
  function Walked(p: Player, alive: set<nat>, nb: nat, v: nat): (r: Player)
    requires p.Valid() && 0 < nb <= 8
    ensures r.Valid()
    decreases v
  {
    if v == 0 then p else Walked(Asked(p, alive, nb).0, alive, nb, v - 1)
  }

  lemma {:induction false} WalkedNext(p: Player, alive: set<nat>, nb: nat, v: nat)
    requires p.Valid() && 0 < nb <= 8
    ensures Walked(p, alive, nb, v + 1) == Asked(Walked(p, alive, nb, v), alive, nb).0
    decreases v
  {
    hide Asked;
    if v > 0 {
      WalkedNext(Asked(p, alive, nb).0, alive, nb, v - 1);
    }
  }

  /** The player's try number v, counted from 0, finds a worm. */
  predicate Finds(p: Player, alive: set<nat>, nb: nat, v: nat)
    requires p.Valid() && 0 < nb <= 8
  {
    Asked(Walked(p, alive, nb, v), alive, nb).1 != 0
  }

  /** Among the nbr slots after the e-th one is a living worm. */
  predicate Near(p: Player, alive: set<nat>, nb: nat, e: nat)
    requires 0 < nb
  {
    exists f: nat :: e < f <= e + p.nbr && AliveAt(p, alive, nb, f)
  }

  /** A living worm with an id is d slots on, and on the way to it there are never nbr slots in a row
      without a living worm. */
  predicate Ahead(p: Player, alive: set<nat>, nb: nat, d: nat)
    requires p.Valid() && 0 < nb <= 8
  {
    && AliveAt(p, alive, nb, d) && p.worms[SlotAt(p, nb, d)] != 0
    && forall e: nat :: e + p.nbr < d ==> Near(p, alive, nb, e)
  }

  /** The player is no spectator, and has such a worm at most one round of the slots ahead. */
  predicate CanReach(p: Player, alive: set<nat>, nb: nat)
    requires p.Valid() && 0 < nb <= 8
  {
    p.team != 0 && exists d: nat :: 1 <= d <= nb && Ahead(p, alive, nb, d)
  }

  lemma Stepped(p: Player, alive: set<nat>, nb: nat, k: nat, j: nat)
    requires p.Valid() && 0 < nb <= 8
    ensures var q := p.(current := SlotAt(p, nb, k));
            SlotAt(q, nb, j) == SlotAt(p, nb, k + j) && (AliveAt(q, alive, nb, j) <==> AliveAt(p, alive, nb, k + j))
  {
    hide Wrap;
    assert Wrap(nb, SlotAt(p, nb, k)) == SlotAt(p, nb, k);
    assert p.current + (k + j) == (p.current + k) + j;
    WrapShift(nb, SlotAt(p, nb, k), p.current + k, j);
  }

  lemma {:induction false} AheadFinds(p: Player, alive: set<nat>, nb: nat, d: nat) returns (v: nat)
    requires p.Valid() && 0 < nb <= 8 && p.team != 0 && d >= 1 && Ahead(p, alive, nb, d)
    ensures v < d && Finds(p, alive, nb, v)
    decreases d
  {
    hide AliveAt, SlotAt, GetNext, SearchFrom;
    SearchFinds(p, alive, nb);
    var k := SearchFrom(p, alive, nb, 1);
    if d > p.nbr {
      assert Near(p, alive, nb, 0);
    }
    assert k <= p.nbr && k <= d;
    if p.worms[SlotAt(p, nb, k)] != 0 {
      v := 0;
    } else {
      var q := p.(current := SlotAt(p, nb, k));
      AheadOfStep(p, alive, nb, k, d);
      v := AheadFinds(q, alive, nb, d - k);
      v := v + 1;
    }
  }

  lemma AheadOfStep(p: Player, alive: set<nat>, nb: nat, k: nat, d: nat)
    requires p.Valid() && 0 < nb <= 8 && k < d && Ahead(p, alive, nb, d)
    ensures p.(current := SlotAt(p, nb, k)).Valid() && Ahead(p.(current := SlotAt(p, nb, k)), alive, nb, d - k)
  {
    hide AliveAt, SlotAt;
    var q := p.(current := SlotAt(p, nb, k));
    Stepped(p, alive, nb, k, d - k);
    forall e: nat | e + q.nbr < d - k
      ensures Near(q, alive, nb, e)
    {
      assert Near(p, alive, nb, k + e);
      var f: nat :| (k + e) < f <= (k + e) + p.nbr && AliveAt(p, alive, nb, f);
      Stepped(p, alive, nb, k, f - k);
      assert AliveAt(q, alive, nb, f - k);
    }
  }

  /** A player that finds a worm has it ahead. */
  lemma {:induction false} FindsAhead(p: Player, alive: set<nat>, nb: nat, v: nat) returns (d: nat)
    requires p.Valid() && 0 < nb <= 8 && p.team != 0 && Finds(p, alive, nb, v)
    ensures 1 <= d <= nb && Ahead(p, alive, nb, d)
    decreases v
  {
    hide AliveAt, SlotAt, GetNext, SearchFrom;
    SearchFinds(p, alive, nb);
    var k := SearchFrom(p, alive, nb, 1);
    if k > p.nbr {
      d := FindsAhead(p, alive, nb, v - 1);
    } else {
      WithinRound(p, alive, nb, k);
      if p.worms[SlotAt(p, nb, k)] != 0 {
        d := k;
      } else {
        d := FindsAhead(p.(current := SlotAt(p, nb, k)), alive, nb, v - 1);
        BeforeStep(p, alive, nb, k, d);
        d := k + d;
      }
    }
  }

  /** The slots repeat after nb of them. */
  lemma SlotRepeats(p: Player, alive: set<nat>, nb: nat, j: nat)
    requires p.Valid() && 0 < nb <= 8
    ensures SlotAt(p, nb, j + nb) == SlotAt(p, nb, j) && AliveAt(p, alive, nb, j + nb) == AliveAt(p, alive, nb, j)
  {
    hide SlotAlive;
    assert Wrap(nb, p.current + j + nb) == Wrap(nb, p.current + j);
  }

  lemma WithinRound(p: Player, alive: set<nat>, nb: nat, k: nat)
    requires p.Valid() && 0 < nb <= 8 && FirstAlive(p, alive, nb, k)
    ensures k <= nb
  {
    hide AliveAt;
    if k > nb {
      SlotRepeats(p, alive, nb, k - nb);
    }
  }

  lemma BeforeStep(p: Player, alive: set<nat>, nb: nat, k: nat, d: nat)
    requires p.Valid() && 0 < nb <= 8 && FirstAlive(p, alive, nb, k) && k <= nb && p.worms[SlotAt(p, nb, k)] == 0
    requires 1 <= d <= nb && Ahead(p.(current := SlotAt(p, nb, k)), alive, nb, d)
    ensures k + d <= nb && Ahead(p, alive, nb, k + d)
  {
    hide AliveAt, SlotAt;
    var q := p.(current := SlotAt(p, nb, k));
    Stepped(p, alive, nb, k, d);
    if k + d > nb {
      SlotRepeats(p, alive, nb, k + d - nb);
    }
    assert k + d <= nb;
    forall e: nat | e + p.nbr < k + d
      ensures Near(p, alive, nb, e)
    {
      if e >= k {
        assert Near(q, alive, nb, e - k);
        var f: nat :| e - k < f <= e - k + q.nbr && AliveAt(q, alive, nb, f);
        Stepped(p, alive, nb, k, f);
        assert AliveAt(p, alive, nb, k + f);
      } else {
        assert AliveAt(p, alive, nb, k);
      }
    }
  }

  // ---------------------------------------------------------------- whose turn it is to be asked

  /** How many of the first n iterations ask the player at index i. */
  function Visits(t: Table, i: nat, n: nat): (v: nat)
    requires t.Valid()
  {
    if n == 0 then 0 else Visits(t, i, n - 1) + if Wrap(|t.players|, t.cur + n) == i then 1 else 0
  }

  /** After n iterations every player is where its own tries have led it. */
  lemma {:induction false} TriedIs(t: Table, alive: set<nat>, n: nat)
    requires t.Valid()
    ensures var r := Tried(t, alive, n);
            && r.nb == t.nb && |r.players| == |t.players| && r.cur == Wrap(|t.players|, t.cur + n)
            && forall i :: 0 <= i < |t.players| ==> r.players[i] == Walked(t.players[i], alive, t.nb, Visits(t, i, n))
  {
    hide GetNext, Walked, Asked, Wrap;
    if n == 0 {
      forall i | 0 <= i < |t.players|
        ensures Walked(t.players[i], alive, t.nb, 0) == t.players[i]
      {
        WalkedNone(t.players[i], alive, t.nb);
      }
      WrapBelow(|t.players|, t.cur);
    } else {
      TriedIs(t, alive, n - 1);
      var r := Tried(t, alive, n - 1);
      NextWrap(|t.players|, t.cur + n - 1);
      var c := Wrap(|t.players|, t.cur + n);
      WalkedNext(t.players[c], alive, t.nb, Visits(t, c, n - 1));
      AskedIsNext(r, c, alive);
    }
  }

  lemma WalkedNone(p: Player, alive: set<nat>, nb: nat)
    requires p.Valid() && 0 < nb <= 8
    ensures Walked(p, alive, nb, 0) == p
  {
  }

  lemma WrapBelow(n: nat, v: nat)
    requires v < n
    ensures Wrap(n, v) == v
  {
  }

  lemma AskedIsNext(t: Table, i: nat, alive: set<nat>)
    requires t.Valid() && i < |t.players|
    ensures NextOf(t.players, i, alive, t.nb) == Asked(t.players[i], alive, t.nb)
  {
  }

  lemma {:induction false} VisitsPeriod(t: Table, i: nat, n: nat)
    requires t.Valid() && i < |t.players|
    ensures Visits(t, i, n + |t.players|) == Visits(t, i, n) + 1
  {
    hide Wrap;
    if n == 0 {
      var d := Reachable(|t.players|, t.cur, i);
      VisitsFirst(t, i, d - t.cur, |t.players|);
    } else {
      VisitsPeriod(t, i, n - 1);
      RoundOn(|t.players|, t.cur + n);
    }
  }

  lemma RoundOn(n: nat, v: nat)
    requires n > 0
    ensures Wrap(n, v + n) == Wrap(n, v)
  {
  }

  /** In the first round a player is asked once. */
  lemma {:induction false} VisitsFirst(t: Table, i: nat, d: nat, k: nat)
    requires t.Valid() && 1 <= d <= |t.players| && Wrap(|t.players|, t.cur + d) == i && k <= |t.players|
    ensures Visits(t, i, k) == if d <= k then 1 else 0
  {
    hide Wrap;
    if k > 0 {
      VisitsFirst(t, i, d, k - 1);
      if Wrap(|t.players|, t.cur + k) == i && k < d {
        SameIndex(|t.players|, t.cur + k, t.cur + d);
      } else if Wrap(|t.players|, t.cur + k) == i && d < k {
        SameIndex(|t.players|, t.cur + d, t.cur + k);
      }
    }
  }

  /** The number of iterations in v rounds of the table. */
  function Iterations(v: nat, size: nat): nat {
    v * size
  }

  lemma IterationsGrow(v: nat, w: nat, size: nat)
    ensures Iterations(v + 1, size) == Iterations(v, size) + size
    ensures v <= w ==> Iterations(v, size) <= Iterations(w, size)
    ensures Iterations(0, size) == 0
  {
    if v <= w {
      assert (w - v) * size >= 0;
    }
  }

  /** The iteration that is the player's try number v. */
  lemma {:induction false} TryNumber(t: Table, i: nat, v: nat) returns (n: nat)
    requires t.Valid() && i < |t.players|
    ensures n < Iterations(v + 1, |t.players|) && Visits(t, i, n) == v && Wrap(|t.players|, t.cur + n + 1) == i
  {
    hide Wrap, Iterations;
    IterationsGrow(v, v, |t.players|);
    if v == 0 {
      var d := Reachable(|t.players|, t.cur, i);
      n := d - t.cur - 1;
      VisitsFirst(t, i, d - t.cur, n);
    } else {
      n := TryNumber(t, i, v - 1);
      VisitsPeriod(t, i, n);
      RoundOn(|t.players|, t.cur + n + 1);
      n := n + |t.players|;
    }
  }

  lemma TryAsks(t: Table, alive: set<nat>, n: nat)
    requires t.Valid()
    ensures var i := Wrap(|t.players|, t.cur + n + 1);
            TryNext(Tried(t, alive, n), alive).1 != 0 <==> Finds(t.players[i], alive, t.nb, Visits(t, i, n))
  {
    hide GetNext, Walked, Asked, Wrap, Tried, Visits;
    TriedIs(t, alive, n);
    NextWrap(|t.players|, t.cur + n);
    AskedIsNext(Tried(t, alive, n), Wrap(|t.players|, t.cur + n + 1), alive);
  }

  /** The loop ends if and only if some player who is no spectator has a living worm with an id ahead, with
      no gap on the way as long as the number of worms it looks at; and then within as many rounds of the
      table as there are slots. */
  lemma LoopEndsIff(t: Table, alive: set<nat>)
    requires t.Valid()
    ensures LoopEnds(t, alive) <==> exists i :: 0 <= i < |t.players| && CanReach(t.players[i], alive, t.nb)
    ensures forall n: nat :: Ends(t, alive, n) ==> n < Iterations(t.nb, |t.players|)
  {
    hide TryNext, Tried, Walked, Asked, Ahead, Visits, Wrap, Finds, Iterations;
    if i: nat :| i < |t.players| && CanReach(t.players[i], alive, t.nb) {
      var m := ReacherEnds(t, alive, i);
      forall n: nat | Ends(t, alive, n)
        ensures n < Iterations(t.nb, |t.players|)
      {
        EndsOnce(t, alive, m, n);
      }
    }
    forall n: nat | Ends(t, alive, n)
      ensures exists i :: 0 <= i < |t.players| && CanReach(t.players[i], alive, t.nb)
    {
      var i := Wrap(|t.players|, t.cur + n + 1);
      TryAsks(t, alive, n);
      SpectatorFindsNone(t.players[i], alive, t.nb, Visits(t, i, n));
      var d := FindsAhead(t.players[i], alive, t.nb, Visits(t, i, n));
      assert CanReach(t.players[i], alive, t.nb);
    }
  }

  lemma {:induction false} SpectatorFindsNone(p: Player, alive: set<nat>, nb: nat, v: nat)
    requires p.Valid() && 0 < nb <= 8
    ensures Finds(p, alive, nb, v) ==> p.team != 0
    decreases v
  {
    hide GetNext;
    if v > 0 {
      SpectatorFindsNone(Asked(p, alive, nb).0, alive, nb, v - 1);
    }
  }

  lemma ReacherEnds(t: Table, alive: set<nat>, i: nat) returns (m: nat)
    requires t.Valid() && i < |t.players| && CanReach(t.players[i], alive, t.nb)
    ensures m < Iterations(t.nb, |t.players|) && Ends(t, alive, m)
  {
    hide TryNext, Tried, Walked, Asked, Ahead, Visits, Wrap, Finds, Iterations;
    var d: nat :| 1 <= d <= t.nb && Ahead(t.players[i], alive, t.nb, d);
    var v := AheadFinds(t.players[i], alive, t.nb, d);
    var n := TryNumber(t, i, v);
    TryAsks(t, alive, n);
    m := FirstEnds(t, alive, n);
    IterationsGrow(v + 1, t.nb, |t.players|);
  }

  // ---------------------------------------------------------------- when no living worm has the id 0

  lemma NothingFound(players: seq<Player>, i: nat, alive: set<nat>, nb: nat)
    requires i < |players| && players[i].Valid() && 0 < nb <= 8
    requires NextOf(players, i, alive, nb).1 == 0 && 0 !in alive
    ensures NextOf(players, i, alive, nb).0 == players[i]
  {
    hide GetNext, SearchFrom;
    SearchFinds(players[i], alive, nb);
  }

  /** As long as nothing is found only the position changes. */
  lemma {:induction false} TriedInVain(t: Table, alive: set<nat>, n: nat)
    requires t.Valid() && 0 !in alive
    requires forall m: nat :: m < n ==> TryNext(Tried(t, alive, m), alive).1 == 0
    ensures Tried(t, alive, n) == t.(cur := Wrap(|t.players|, t.cur + n))
    ensures TryNext(Tried(t, alive, n), alive).1 != 0 <==> Wrap(|t.players|, t.cur + n + 1) in Ready(t, alive)
  {
    hide TryNext, Ready;
    if n > 0 {
      TriedInVain(t, alive, n - 1);
      TryFrom(t, alive, t.cur + n - 1);
    }
    TryFrom(t, alive, t.cur + n);
  }

  /** One iteration from position v. */
  lemma TryFrom(t: Table, alive: set<nat>, v: nat)
    requires t.Valid() && 0 !in alive
    ensures t.(cur := Wrap(|t.players|, v)).Valid()
    ensures var (next, id) := TryNext(t.(cur := Wrap(|t.players|, v)), alive);
            && (id != 0 <==> Wrap(|t.players|, v + 1) in Ready(t, alive))
            && (id == 0 ==> next == t.(cur := Wrap(|t.players|, v + 1)))
  {
    hide NextOf;
    NextWrap(|t.players|, v);
    var c := Wrap(|t.players|, v + 1);
    var (p, id) := NextOf(t.players, c, alive, t.nb);
    if id == 0 {
      NothingFound(t.players, c, alive, t.nb);
      assert t.players[c := p] == t.players;
    }
  }

  lemma {:induction false} VainUntil(t: Table, alive: set<nat>, n: nat)
    requires t.Valid() && 0 !in alive
    requires forall w: nat :: t.cur < w <= t.cur + n ==> !Eligible(Ready(t, alive), |t.players|, w)
    ensures forall m: nat :: m < n ==> TryNext(Tried(t, alive, m), alive).1 == 0
  {
    hide TryNext, Tried, Ready;
    if n > 0 {
      VainUntil(t, alive, n - 1);
      TriedInVain(t, alive, n - 1);
      assert !Eligible(Ready(t, alive), |t.players|, t.cur + n);
    }
  }

  /** Then the loop ends if and only if some player is ready, within one round of the table, with the first
      ready player in cyclic order and that player's next worm. */
  lemma PlainLoop(t: Table, alive: set<nat>)
    requires t.Valid() && 0 !in alive
    ensures LoopEnds(t, alive) <==> Any(Ready(t, alive), |t.players|)
    ensures forall n: nat :: Ends(t, alive, n) ==> n < |t.players|
    ensures Any(Ready(t, alive), |t.players|) ==> LoopResult(t, alive) == (TakeTurn(t, alive), WormFound(t, alive))
  {
    hide TryNext, Tried, Following, Ready, TakeTurn, WormFound;
    var size, ready := |t.players|, Ready(t, alive);
    if Any(ready, size) {
      var n := Following(ready, size, t.cur) - t.cur - 1;
      VainUntil(t, alive, n);
      TriedInVain(t, alive, n);
      assert Ends(t, alive, n);
      EndsOnce(t, alive, n, LastTry(t, alive));
      FoundThere(t, alive, n);
      forall m: nat | Ends(t, alive, m)
        ensures m < size
      {
        EndsOnce(t, alive, n, m);
      }
    }
    forall n: nat | Ends(t, alive, n)
      ensures Any(ready, size)
    {
      TriedInVain(t, alive, n);
    }
  }

  lemma FoundThere(t: Table, alive: set<nat>, n: nat)
    requires t.Valid() && Any(Ready(t, alive), |t.players|) && n == Following(Ready(t, alive), |t.players|, t.cur) - t.cur - 1
    ensures TryNext(t.(cur := Wrap(|t.players|, t.cur + n)), alive) == (TakeTurn(t, alive), WormFound(t, alive))
  {
    hide NextOf, Following, Ready;
    NextWrap(|t.players|, t.cur + n);
  }

  // ---------------------------------------------------------------- two players who joined with one worm

  /** The players joined with one worm each, then the number of worms was raised to three. */
  function RaisedTable(): Table {
    var p := Player(1, [11, 0, 0, 0, 0, 0, 0, 0], 1, 0);
    var q := Player(2, [22, 0, 0, 0, 0, 0, 0, 0], 1, 0);
    Table([p, q], 0, 3)
  }

  /** At first the nameless worms of the empty slots live, and the loop ends at its fifth iteration. Once
      they are dead it never ends, although two teams are alive. */
  lemma RaisedTableGetsStuck()
    ensures var t := RaisedTable();
            && t.Valid() && AliveTeams(t.players, {11, 22}) == {1, 2}
            && Ends(t, {0, 11, 22}, 4) && !LoopEnds(t, {11, 22})
  {
    hide LoopEnds, Ends;
    var t, alive := RaisedTable(), {11, 22};
    assert SlotAlive(t.players[0], alive, 0) && SlotAlive(t.players[1], alive, 0);
    assert t.players[0].team in AliveTeams(t.players, alive) && t.players[1].team in AliveTeams(t.players, alive);
    LoopEndsIff(t, alive);
    forall i | 0 <= i < 2
      ensures !CanReach(t.players[i], alive, 3)
    {
      GapOfTwo(t.players[i], alive);
    }
    FifthTry();
  }

  lemma GapOfTwo(p: Player, alive: set<nat>)
    requires p.Valid() && p.current == 0 && p.nbr == 1 && !SlotAlive(p, alive, 1) && !SlotAlive(p, alive, 2)
    ensures !CanReach(p, alive, 3)
  {
    assert !AliveAt(p, alive, 3, 1) && !AliveAt(p, alive, 3, 2);
    assert !Near(p, alive, 3, 1);
  }

  lemma FifthTry()
    ensures Ends(RaisedTable(), {0, 11, 22}, 4)
  {
    hide TryNext;
    var t, alive := RaisedTable(), {0, 11, 22};
    var p, q := t.players[0], t.players[1];
    var t1 := Table([p, q.(current := 1)], 1, 3);
    var t2 := Table([p.(current := 1), q.(current := 1)], 0, 3);
    var t3 := Table([p.(current := 1), q.(current := 2)], 1, 3);
    var t4 := Table([p.(current := 2), q.(current := 2)], 0, 3);
    OneOn(t, t1, alive);
    OneOn(t1, t2, alive);
    OneOn(t2, t3, alive);
    OneOn(t3, t4, alive);
    OneOn(t4, Table([p.(current := 2), q], 1, 3), alive);
    assert Tried(t, alive, 1) == t1;
    assert Tried(t, alive, 2) == t2;
    assert Tried(t, alive, 3) == t3;
    forall m: nat | m < 4
      ensures TryNext(Tried(t, alive, m), alive).1 == 0
    {
      if m == 0 {} else if m == 1 {} else if m == 2 {} else {}
    }
  }

  /** With one worm to look at and all slots alive a player moves on by one slot. */
  lemma OneOn(a: Table, b: Table, alive: set<nat>)
    requires a.Valid() && a.nb == 3 && |a.players| == |b.players| == 2
    requires var p := a.players[1 - a.cur]; p.team != 0 && p.nbr == 1 && forall j :: 0 <= j < 3 ==> SlotAlive(p, alive, j)
    requires b == Table(b.players, 1 - a.cur, 3) && b.players[a.cur] == a.players[a.cur]
    requires b.players[b.cur] == a.players[b.cur].(current := (1 + a.players[b.cur].current) % 3)
    ensures TryNext(a, alive) == (b, b.players[b.cur].worms[b.players[b.cur].current])
  {
    var c, p := b.cur, a.players[b.cur];
    assert SearchFrom(p, alive, 3, 1) == 1;
    assert a.players[c := b.players[c]] == b.players;
  }
}
