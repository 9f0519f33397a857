/** Counting in circles: the remainder modulo n as a walk along 0..n-1, again and again. */
module Cyclic {
  /** The index at position v of a line that repeats 0..n-1 forever: v modulo n. */
  function Wrap(n: nat, v: nat): (i: nat)
    requires n > 0
    ensures i < n
    ensures v < n ==> i == v
  {
    if v < n then v else Wrap(n, v - n)
  }

  lemma {:induction false} WrapIsModulo(n: nat, v: nat)
    requires n > 0
    ensures Wrap(n, v) == v % n
  {
    if v >= n {
      WrapIsModulo(n, v - n);
      OneLess(n, v);
    }
  }

  lemma OneLess(n: nat, v: nat)
    requires n > 0 && v >= n
    ensures v % n == (v - n) % n
  {
    var q, r := (v - n) / n, (v - n) % n;
    assert v - n == n * q + r;
    var q', r' := v / n, v % n;
    assert v == n * q' + r';
    var k := q' - q - 1;
    assert n * k == n * q' - n * q - n;
    assert n * k == r - r';
    if k != 0 {
      Multiple(n, k);
      assert false;
    }
  }

  lemma Multiple(n: nat, k: int)
    requires k != 0
    ensures n * k >= n || n * k <= 0 - n
  {
    if k >= 1 {
      assert n * (k - 1) >= 0;
    } else {
      assert n * (0 - k - 1) >= 0;
    }
  }

  lemma {:induction false} WrapShift(n: nat, a: nat, b: nat, d: nat)
    requires n > 0 && Wrap(n, a) == Wrap(n, b)
    ensures Wrap(n, a + d) == Wrap(n, b + d)
    decreases a + b
  {
    if a >= n {
      WrapShift(n, a - n, b, d);
    } else if b >= n {
      WrapShift(n, a, b - n, d);
    }
  }

  /** The positions of one index are a whole number of rounds apart. */
  lemma {:induction false} SameIndex(n: nat, a: nat, b: nat)
    requires n > 0 && a < b && Wrap(n, a) == Wrap(n, b)
    ensures b >= a + n
  {
    if a >= n {
      SameIndex(n, a - n, b - n);
    }
  }

  lemma {:induction false} NextWrap(n: nat, v: nat)
    requires n > 0
    ensures Wrap(n, v + 1) == if Wrap(n, v) + 1 >= n then 0 else Wrap(n, v) + 1
  {
    if v >= n {
      NextWrap(n, v - n);
    }
  }
}
