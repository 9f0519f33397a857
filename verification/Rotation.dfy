/** Round-robin selection: the next eligible index in cyclic order, and the fairness of repeating it
    while indices only ever lose their eligibility. Both the players of a game and the worms of a
    player are chosen in this way (Server/src/game.cpp, Server/src/in_game_player.cpp). */
module Rotation {
  import opened Cyclic

  // ---------------------------------------------------------------- one selection

  predicate Eligible(ok: set<nat>, n: nat, v: nat)
    requires n > 0
  {
    Wrap(n, v) in ok
  }

  /** Some index below n is eligible. */
  predicate Any(ok: set<nat>, n: nat) {
    exists i :: i in ok && i < n
  }

  /** The first position from v on whose index is eligible, at most limit. */
  function FirstFrom(ok: set<nat>, n: nat, v: nat, limit: nat): (u: nat)
    requires n > 0 && v <= limit && Eligible(ok, n, limit)
    ensures v <= u <= limit && Eligible(ok, n, u)
    ensures forall w: nat :: v <= w < u ==> !Eligible(ok, n, w)
    decreases limit - v
  {
    if Eligible(ok, n, v) then v else FirstFrom(ok, n, v + 1, limit)
  }

  /** Every index has a position within one round after u. */
  lemma {:induction false} Reachable(n: nat, u: nat, i: nat) returns (v: nat)
    requires i < n
    ensures u < v <= u + n && Wrap(n, v) == i
  {
    if u < n {
      v := if i > u then i else i + n;
      assert Wrap(n, i + n) == Wrap(n, i);
    } else {
      v := Reachable(n, u - n, i);
      assert Wrap(n, v + n) == Wrap(n, v);
      v := v + n;
    }
  }

  lemma AnyReachable(ok: set<nat>, n: nat, u: nat)
    requires Any(ok, n)
    ensures exists v: nat :: u < v <= u + n && Eligible(ok, n, v)
  {
    var i :| i in ok && i < n;
    var v := Reachable(n, u, i);
    assert Eligible(ok, n, v);
  }

  /** The first eligible position after u. */
  ghost function Following(ok: set<nat>, n: nat, u: nat): (v: nat)
    requires n > 0 && Any(ok, n)
    ensures u < v <= u + n && Eligible(ok, n, v)
    ensures forall w: nat :: u < w < v ==> !Eligible(ok, n, w)
  {
    AnyReachable(ok, n, u);
    var limit: nat :| u < limit <= u + n && Eligible(ok, n, limit);
    FirstFrom(ok, n, u + 1, limit)
  }

  /** The first eligible index after cur in cyclic order, perhaps cur itself after a full round. */
  ghost function Next(ok: set<nat>, n: nat, cur: nat): (i: nat)
    requires n > 0 && Any(ok, n)
    ensures i < n && i in ok
  {
    Wrap(n, Following(ok, n, cur))
  }

  /** What a search that tries the positions after cur one by one finds. */
  lemma NextIs(ok: set<nat>, n: nat, cur: nat, v: nat)
    requires n > 0 && cur < v && Eligible(ok, n, v)
    requires forall w: nat :: cur < w < v ==> !Eligible(ok, n, w)
    ensures Any(ok, n) && Next(ok, n, cur) == Wrap(n, v)
  {
    assert Wrap(n, v) in ok;
    var u := Following(ok, n, cur);
    assert Eligible(ok, n, u) && Eligible(ok, n, v);
  }

  // ---------------------------------------------------------------- runs

  /** turns[k + 1] is the next index after turns[k] among those eligible at step k + 1. */
  ghost predicate IsRun(n: nat, turns: seq<nat>, oks: seq<set<nat>>) {
    && n > 0 && |turns| == |oks|
    && (forall k :: 0 <= k < |turns| ==> turns[k] < n)
    && (forall k :: 1 <= k < |turns| ==> Any(oks[k], n) && turns[k] == Next(oks[k], n, turns[k - 1]))
  }

  /** Indices only lose their eligibility. */
  ghost predicate Shrinking(oks: seq<set<nat>>) {
    forall i, j :: 0 <= i <= j < |oks| ==> oks[j] <= oks[i]
  }

  /** The position of turn k. */
  ghost function Position(n: nat, turns: seq<nat>, oks: seq<set<nat>>, k: nat): (u: nat)
    requires IsRun(n, turns, oks) && k < |turns|
    ensures Wrap(n, u) == turns[k]
  {
    if k == 0 then turns[0]
    else
      var before := Position(n, turns, oks, k - 1);
      StepShift(oks[k], n, turns[k - 1], before);
      Following(oks[k], n, before)
  }

  /** Only the index of a position matters for what follows it. */
  lemma StepShift(ok: set<nat>, n: nat, a: nat, b: nat)
    requires n > 0 && Any(ok, n) && Wrap(n, a) == Wrap(n, b)
    ensures Wrap(n, Following(ok, n, a)) == Wrap(n, Following(ok, n, b))
  {
    var d, e := Following(ok, n, a) - a, Following(ok, n, b) - b;
    WrapShift(n, a, b, d);
    WrapShift(n, a, b, e);
    hide Wrap;
    assert Eligible(ok, n, b + d) && Eligible(ok, n, a + e);
  }

  lemma PositionStep(n: nat, turns: seq<nat>, oks: seq<set<nat>>, k: nat)
    requires IsRun(n, turns, oks) && 0 < k < |turns|
    ensures Position(n, turns, oks, k - 1) < Position(n, turns, oks, k)
    ensures forall w: nat :: Position(n, turns, oks, k - 1) < w < Position(n, turns, oks, k) ==> !Eligible(oks[k], n, w)
    ensures turns[k] in oks[k]
  {
  }

  /** A run visits every position whose index stays eligible. */
  lemma {:induction false} NoSkip(n: nat, turns: seq<nat>, oks: seq<set<nat>>, i: nat, j: nat, v: nat) returns (k: nat)
    requires IsRun(n, turns, oks) && Shrinking(oks) && i <= j < |turns|
    requires Position(n, turns, oks, i) < v <= Position(n, turns, oks, j)
    requires Eligible(oks[j], n, v)
    ensures i < k <= j && Position(n, turns, oks, k) == v
  {
    hide Position, Following, Next;
    assert i < j;
    PositionStep(n, turns, oks, j);
    if v <= Position(n, turns, oks, j - 1) {
      assert oks[j] <= oks[j - 1];
      k := NoSkip(n, turns, oks, i, j - 1, v);
    } else {
      k := j;
    }
  }

  lemma {:induction false} PositionsIncrease(n: nat, turns: seq<nat>, oks: seq<set<nat>>, i: nat, j: nat)
    requires IsRun(n, turns, oks) && i < j < |turns|
    ensures Position(n, turns, oks, i) < Position(n, turns, oks, j)
  {
    hide Position, Following, Next;
    PositionStep(n, turns, oks, j);
    if i < j - 1 {
      PositionsIncrease(n, turns, oks, i, j - 1);
    }
  }

  /** Between two consecutive turns of an index lies exactly one round. */
  lemma OneRound(n: nat, turns: seq<nat>, oks: seq<set<nat>>, i: nat, j: nat)
    requires IsRun(n, turns, oks) && Shrinking(oks) && i < j < |turns|
    requires turns[i] == turns[j]
    requires forall k :: i < k < j ==> turns[k] != turns[i]
    ensures Position(n, turns, oks, j) == Position(n, turns, oks, i) + n
  {
    hide Position, Following, Next;
    PositionStep(n, turns, oks, j);
    var a, b := Position(n, turns, oks, i), Position(n, turns, oks, j);
    PositionsIncrease(n, turns, oks, i, j);
    SameIndex(n, a, b);
    assert Wrap(n, a + n) == turns[j];
    var k := NoSkip(n, turns, oks, i, j, a + n);
    assert turns[k] == turns[i];
  }

  /** Fairness: between two consecutive turns of an index, every other index that stays eligible has exactly one turn. */
  lemma Fair(n: nat, turns: seq<nat>, oks: seq<set<nat>>, i: nat, j: nat, q: nat) returns (k: nat)
    requires IsRun(n, turns, oks) && Shrinking(oks) && i < j < |turns|
    requires turns[i] == turns[j]
    requires forall l :: i < l < j ==> turns[l] != turns[i]
    requires q < n && q in oks[j] && q != turns[i]
    ensures i < k < j && turns[k] == q
    ensures forall l :: i < l < j && turns[l] == q ==> l == k
  {
    hide Position, Following, Next;
    var a := Position(n, turns, oks, i);
    OneRound(n, turns, oks, i, j);
    var v := Reachable(n, a, q);
    k := NoSkip(n, turns, oks, i, j, v);
    assert k != j;
    forall l | i < l < j && turns[l] == q
      ensures l == k
    {
      PositionsIncrease(n, turns, oks, i, l);
      PositionsIncrease(n, turns, oks, l, j);
      var u := Position(n, turns, oks, l);
      if u < v {
        SameIndex(n, u, v);
      } else if v < u {
        SameIndex(n, v, u);
      } else if l < k {
        PositionsIncrease(n, turns, oks, l, k);
      } else if k < l {
        PositionsIncrease(n, turns, oks, k, l);
      }
    }
  }
}
