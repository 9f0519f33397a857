/** BF_set_key (Server/lib/crypt_blowfish/crypt_blowfish.c): the cyclic reading of the key, the emulated
    sign extension bug, and the branch-free safety measure against collisions with it. */
module SetKey {
  import opened Cyclic
  import opened Blowfish
  import opened BfCoder

  /** A key: the characters of a C string, without the terminating NUL. */
  type Key = k: seq<bv8> | 0 !in k witness []

  // ---------------------------------------------------------------- what the loop reads and builds

  /** The byte read at step k: the key and its NUL over and over. */
  function KeyByte(key: Key, k: nat): bv8 {
    CharAt(key, Wrap(|key| + 1, k))
  }

  predicate TopBit(b: bv8) {
    b & 0x80 != 0
  }

  function AppendUnsigned(t: word, b: bv8): word {
    (t << 8) | b as word
  }

  /** A byte with its top bit set, extended as a signed char. */
  function AppendNegative(t: word, b: bv8): word {
    (t << 8) | (0xFFFF_FF00 | b as word)
  }

  /** The next byte, as the correct algorithm reads it, or as a signed char. */
  function Append(t: word, b: bv8, bug: bool): word {
    if bug && TopBit(b) then AppendNegative(t, b) else AppendUnsigned(t, b)
  }

  /** Word i of the expanded key after j of its bytes. */
  function Partial(key: Key, bug: bool, i: nat, j: nat): word {
    if j == 0 then 0 else Append(Partial(key, bug, i, j - 1), KeyByte(key, 4 * i + j - 1), bug)
  }

  function Word(key: Key, bug: bool, i: nat): word {
    Partial(key, bug, i, 4)
  }

  /** The expanded key. */
  function Expanded(key: Key, bug: bool): Subkeys {
    seq(18, i requires 0 <= i < 18 => Word(key, bug, i))
  }

  /** Some byte of word i that is not its first has its top bit set. */
  predicate SignedWord(key: Key, i: nat) {
    TopBit(KeyByte(key, 4 * i + 1)) || TopBit(KeyByte(key, 4 * i + 2)) || TopBit(KeyByte(key, 4 * i + 3))
  }

  predicate Signed(key: Key, n: nat) {
    exists i: nat :: i < n && SignedWord(key, i)
  }

  /** The correct and the signed reading of the first n words agree. */
  predicate Agree(key: Key, n: nat) {
    forall i: nat :: i < n ==> Word(key, false, i) == Word(key, true, i)
  }

  /** The safety measure is called for. */
  predicate Fires(key: Key) {
    Agree(key, 18) && Signed(key, 18)
  }

  /** What is combined with the first subkey. */
  function Flip(key: Key, flags: bv8): word {
    if flags & 2 != 0 && Fires(key) then 0x10000 else 0
  }

  function Initial(key: Key, flags: bv8, p: Subkeys): Subkeys {
    var x := seq(18, i requires 0 <= i < 18 => Xor(p[i], Word(key, flags & 1 != 0, i)));
    x[0 := Xor(x[0], Flip(key, flags))]
  }

  // ---------------------------------------------------------------- the branch-free flag

  /** The last lines of BF_set_key: sign is 0 or 0x80, safety is 0 or 0x10000. */
  function Decide(sign: word, diff: word, safety: word): word {
    var folded := ((diff | (diff >> 16)) & 0xffff) + 0xffff;
    (sign << 9) & ((!folded) & safety)
  }

  lemma DecideMeaning(sign: word, diff: word, safety: word)
    requires sign == 0 || sign == 0x80
    requires safety == 0 || safety == 0x10000
    ensures Decide(sign, diff, safety) == if sign == 0x80 && diff == 0 && safety == 0x10000 then 0x10000 else 0
  {
  }

  lemma SafetyBit(flags: bv8)
    ensures ((flags as word) & 2) << 15 == if flags & 2 != 0 then 0x10000 else 0
  {
  }

  /** A word of four bytes, read correctly and as signed chars. */
  function Join(a: bv8, b: bv8, c: bv8, d: bv8, bug: bool): word {
    Append(Append(Append(Append(0, a, bug), b, bug), c, bug), d, bug)
  }

  // The lower bits of a word.

  function Low24(t: word): word { t & 0xFF_FFFF }

  function Low16(t: word): word { t & 0xFFFF }

  function Low8(t: word): word { t & 0xFF }

  // When appending a byte makes the readings agree, on all bits and on the lower bits.

  function Back8(t: word): word { t >> 8 }

  /** When bytes are appended, the upper bits of a word are shifted out, and nothing else is lost. */
  lemma Low24Stay(t: word, b: bv8)
    ensures AppendUnsigned(Low24(t), b) == AppendUnsigned(t, b)
  {
  }

  lemma Low16Stay(t: word, b: bv8, c: bv8)
    ensures AppendUnsigned(AppendUnsigned(Low16(t), b), c) == AppendUnsigned(AppendUnsigned(t, b), c)
  {
  }

  lemma Low8Stay(t: word, b: bv8, c: bv8, d: bv8)
    ensures AppendUnsigned(AppendUnsigned(AppendUnsigned(Low8(t), b), c), d)
         == AppendUnsigned(AppendUnsigned(AppendUnsigned(t, b), c), d)
  {
  }

  lemma Low24Back(t: word, b: bv8)
    ensures Back8(AppendUnsigned(t, b)) == Low24(t)
  {
  }

  lemma Low16Back(t: word, b: bv8)
    ensures Back8(Low24(AppendUnsigned(t, b))) == Low16(t)
  {
  }

  lemma Low8Back(t: word, b: bv8)
    ensures Back8(Low16(AppendUnsigned(t, b))) == Low8(t)
  {
  }

  lemma LowerBitsBack(t: word, b: bv8)
    ensures Back8(AppendUnsigned(t, b)) == Low24(t)
    ensures Back8(Low24(AppendUnsigned(t, b))) == Low16(t)
    ensures Back8(Low16(AppendUnsigned(t, b))) == Low8(t)
  {
    hide *;
    Low24Back(t, b);
    Low16Back(t, b);
    Low8Back(t, b);
  }

  lemma UnsignedAgree(t: word, u: word, b: bv8)
    ensures AppendUnsigned(t, b) == AppendUnsigned(u, b) <==> Low24(t) == Low24(u)
    ensures Low24(AppendUnsigned(t, b)) == Low24(AppendUnsigned(u, b)) <==> Low16(t) == Low16(u)
    ensures Low16(AppendUnsigned(t, b)) == Low16(AppendUnsigned(u, b)) <==> Low8(t) == Low8(u)
  {
    hide AppendUnsigned, Low24, Low16, Low8, Back8;
    forall x | x in {t, u}
      ensures var y := AppendUnsigned(x, b);
              var z := AppendUnsigned(y, 0);
              && AppendUnsigned(Low24(x), b) == y
              && AppendUnsigned(AppendUnsigned(Low16(x), b), 0) == z
              && AppendUnsigned(AppendUnsigned(AppendUnsigned(Low8(x), b), 0), 0) == AppendUnsigned(z, 0)
              && Back8(y) == Low24(x) && Back8(Low24(y)) == Low16(x) && Back8(Low16(y)) == Low8(x)
              && Back8(z) == Low24(y) && Back8(Low24(z)) == Low16(y) && Back8(AppendUnsigned(z, 0)) == Low24(z)
    {
      Low24Stay(x, b);
      Low16Stay(x, b, 0);
      Low8Stay(x, b, 0, 0);
      LowerBitsBack(x, b);
      LowerBitsBack(AppendUnsigned(x, b), 0);
      LowerBitsBack(AppendUnsigned(AppendUnsigned(x, b), 0), 0);
    }
  }

  lemma NegativeAgrees(t: word, u: word, b: bv8)
    ensures AppendUnsigned(t, b) == AppendNegative(u, b) <==> Low24(t) == 0xFF_FFFF
    ensures Low24(AppendUnsigned(t, b)) == Low24(AppendNegative(u, b)) <==> Low16(t) == 0xFFFF
    ensures Low16(AppendUnsigned(t, b)) == Low16(AppendNegative(u, b)) <==> Low8(t) == 0xFF
  {
  }

  lemma AppendAgrees(t: word, u: word, b: bv8)
    ensures Append(t, b, false) == Append(u, b, true) <==>
            if TopBit(b) then Low24(t) == 0xFF_FFFF else Low24(t) == Low24(u)
    ensures Low24(Append(t, b, false)) == Low24(Append(u, b, true)) <==>
            if TopBit(b) then Low16(t) == 0xFFFF else Low16(t) == Low16(u)
    ensures Low16(Append(t, b, false)) == Low16(Append(u, b, true)) <==>
            if TopBit(b) then Low8(t) == 0xFF else Low8(t) == Low8(u)
  {
    hide AppendUnsigned, AppendNegative, TopBit, Low24, Low16, Low8;
    UnsignedAgree(t, u, b);
    NegativeAgrees(t, u, b);
  }

  lemma AppendAgrees8(t: word, u: word, b: bv8)
    ensures Low8(Append(t, b, false)) == Low8(Append(u, b, true))
  {
  }

  lemma AppendOnes(t: word, b: bv8)
    ensures Low24(Append(t, b, false)) == 0xFF_FFFF <==> b == 0xff && Low16(t) == 0xFFFF
    ensures Low16(Append(t, b, false)) == 0xFFFF <==> b == 0xff && Low8(t) == 0xFF
    ensures Low8(Append(t, b, false)) == 0xFF <==> b == 0xff
  {
  }

  /** The readings agree exactly if every byte with its top bit set is preceded in its word only by 0xff. */
  lemma ReadingsAgreeIff(a: bv8, b: bv8, c: bv8, d: bv8)
    ensures Join(a, b, c, d, false) == Join(a, b, c, d, true) <==>
            && (TopBit(b) ==> a == 0xff)
            && (TopBit(c) ==> a == 0xff && b == 0xff)
            && (TopBit(d) ==> a == 0xff && b == 0xff && c == 0xff)
  {
    hide Append, TopBit, Low24, Low16, Low8;
    var t1, u1 := Append(0, a, false), Append(0, a, true);
    var t2, u2 := Append(t1, b, false), Append(u1, b, true);
    var t3, u3 := Append(t2, c, false), Append(u2, c, true);
    AppendAgrees8(0, 0, a);
    AppendAgrees(t1, u1, b);
    AppendAgrees(t2, u2, c);
    AppendAgrees(t3, u3, d);
    AppendOnes(0, a);
    AppendOnes(t1, b);
    AppendOnes(t2, c);
  }

  lemma JoinInjective(a: bv8, b: bv8, c: bv8, d: bv8, a': bv8, b': bv8, c': bv8, d': bv8)
    requires Join(a, b, c, d, false) == Join(a', b', c', d', false)
    ensures a == a' && b == b' && c == c' && d == d'
  {
  }

  lemma WordIsJoin(key: Key, bug: bool, i: nat)
    ensures Word(key, bug, i) ==
            Join(KeyByte(key, 4 * i), KeyByte(key, 4 * i + 1), KeyByte(key, 4 * i + 2), KeyByte(key, 4 * i + 3), bug)
  {
    hide Append, KeyByte;
    assert Partial(key, bug, i, 1) == Append(0, KeyByte(key, 4 * i), bug);
    assert Partial(key, bug, i, 2) == Append(Partial(key, bug, i, 1), KeyByte(key, 4 * i + 1), bug);
    assert Partial(key, bug, i, 3) == Append(Partial(key, bug, i, 2), KeyByte(key, 4 * i + 2), bug);
  }

  // ---------------------------------------------------------------- the loops

  lemma SignBit(t: word, b: bv8)
    ensures Append(t, b, true) & 0x80 == if TopBit(b) then 0x80 else 0
  {
  }

  lemma OrSign(a: word, b: word)
    requires (a == 0 || a == 0x80) && (b == 0 || b == 0x80)
    ensures a | b == if a == 0x80 || b == 0x80 then 0x80 else 0
  {
    if a == 0 {
      assert 0 | b == b;
    } else if b == 0 {
      assert a | 0 == a;
    } else {
      assert 0x80 | 0x80 == 0x80 as word;
    }
  }

  lemma OrDiff(diff: word, a: word, b: word)
    ensures diff | Xor(a, b) == 0 <==> diff == 0 && a == b
  {
    hide Xor;
    OrIsZero(diff, Xor(a, b));
    XorIsZero(a, b);
  }

  lemma OrIsZero(a: word, b: word)
    ensures a | b == 0 <==> a == 0 && b == 0
  {
  }

  lemma XorIsZero(a: word, b: word)
    ensures Xor(a, b) == 0 <==> a == b
  {
    hide Xor;
    XorCancels(a, b);
    XorCommutes(0, b);
    XorZero(b);
  }

  /** The pointer that starts over after the NUL walks along the repeated key. */
  lemma NextByte(key: Key, k: nat)
    ensures var ptr := Wrap(|key| + 1, k);
            Wrap(|key| + 1, k + 1) == if CharAt(key, ptr) == 0 then 0 else ptr + 1
  {
    NextWrap(|key| + 1, k);
  }

  /** Whether one of the bytes 1..j-1 of word i has its top bit set. */
  predicate SignedUpTo(key: Key, i: nat, j: nat) {
    || (j > 1 && TopBit(KeyByte(key, 4 * i + 1)))
    || (j > 2 && TopBit(KeyByte(key, 4 * i + 2)))
    || (j > 3 && TopBit(KeyByte(key, 4 * i + 3)))
  }

  lemma SignedStep(key: Key, i: nat)
    ensures Signed(key, i + 1) <==> Signed(key, i) || SignedUpTo(key, i, 4)
    ensures Agree(key, i + 1) <==> Agree(key, i) && Word(key, false, i) == Word(key, true, i)
    ensures !Signed(key, 0) && Agree(key, 0)
  {
    hide KeyByte, TopBit, Word;
    assert SignedWord(key, i) <==> SignedUpTo(key, i, 4);
  }

  /** One word of the key, read in both ways; sign collects the top bits. */
  method ReadWord(key: Key, start: nat, ghost i: nat, sign: word) returns (ptr: nat, correct: word, signed: word, sign': word)
    requires start == Wrap(|key| + 1, 4 * i) && (sign == 0 || sign == 0x80)
    ensures ptr == Wrap(|key| + 1, 4 * i + 4)
    ensures correct == Word(key, false, i) && signed == Word(key, true, i)
    ensures sign' == if sign == 0x80 || SignedUpTo(key, i, 4) then 0x80 else 0
  {
    hide Append, TopBit, Wrap;
    ptr, correct, signed, sign' := start, 0, 0, sign;
    var j := 0;
    while j < 4
      invariant 0 <= j <= 4 && ptr == Wrap(|key| + 1, 4 * i + j)
      invariant correct == Partial(key, false, i, j) && signed == Partial(key, true, i, j)
      invariant sign' == if sign == 0x80 || SignedUpTo(key, i, j) then 0x80 else 0
    {
      var b := CharAt(key, ptr);
      assert b == KeyByte(key, 4 * i + j);
      correct := Append(correct, b, false);
      signed := Append(signed, b, true);
      SignBit(Partial(key, true, i, j), b);
      if j != 0 {
        OrSign(sign', signed & 0x80);
        sign' := sign' | (signed & 0x80);
      }
      NextByte(key, 4 * i + j);
      if b == 0 {
        ptr := 0;
      } else {
        ptr := ptr + 1;
      }
      j := j + 1;
    }
  }

  /** BF_set_key, with the initial subkeys as a parameter. */
  method BfSetKey(key: Key, flags: bv8, p: Subkeys, expanded: array<word>, initial: array<word>)
    requires expanded.Length == 18 && initial.Length == 18 && expanded != initial
    modifies expanded, initial
    ensures expanded[..] == Expanded(key, flags & 1 != 0)
    ensures initial[..] == Initial(key, flags, p)
  {
    hide Word, Agree, Signed, SignedUpTo, Decide, Xor, Wrap;
    var bug := flags & 1 != 0;
    var safety := ((flags as word) & 2) << 15;
    var sign, diff: word := 0, 0;
    var ptr := 0;
    SignedStep(key, 0);
    WrapZero(|key| + 1);
    var i := 0;
    while i < 18
      invariant 0 <= i <= 18 && ptr == Wrap(|key| + 1, 4 * i)
      invariant sign == if Signed(key, i) then 0x80 else 0
      invariant diff == 0 <==> Agree(key, i)
      invariant forall k :: 0 <= k < i ==> expanded[k] == Word(key, bug, k) && initial[k] == Xor(p[k], Word(key, bug, k))
    {
      var correct, signed;
      ptr, correct, signed, sign := ReadWord(key, ptr, i, sign);
      SignedStep(key, i);
      OrDiff(diff, correct, signed);
      diff := diff | Xor(correct, signed);
      expanded[i] := if bug then signed else correct;
      initial[i] := Xor(p[i], if bug then signed else correct);
      i := i + 1;
    }
    SafetyBit(flags);
    DecideMeaning(sign, diff, safety);
    initial[0] := Xor(initial[0], Decide(sign, diff, safety));
  }

  lemma WrapZero(n: nat)
    requires n > 0
    ensures Wrap(n, 0) == 0
  {
  }

  // ---------------------------------------------------------------- what the safety measure achieves

  /** The flags of the prefixes $2a$, $2b$, $2x$ and $2y$. */
  const FLAGS_A: bv8 := 2
  const FLAGS_B: bv8 := 4
  const FLAGS_X: bv8 := 1
  const FLAGS_Y: bv8 := 4

  /** Every byte of word i with its top bit set, other than the first, comes only after 0xff in its word. */
  predicate OnlyAfterOnes(key: Key, i: nat) {
    var a, b, c, d := KeyByte(key, 4 * i), KeyByte(key, 4 * i + 1), KeyByte(key, 4 * i + 2), KeyByte(key, 4 * i + 3);
    && (TopBit(b) ==> a == 0xff)
    && (TopBit(c) ==> a == 0xff && b == 0xff)
    && (TopBit(d) ==> a == 0xff && b == 0xff && c == 0xff)
  }

  /** The safety measure fires exactly if some such byte exists and all of them come only after 0xff. */
  lemma FiresMeaning(key: Key)
    ensures Fires(key) <==> (exists i: nat :: i < 18 && SignedWord(key, i)) && forall i: nat :: i < 18 ==> OnlyAfterOnes(key, i)
  {
    hide KeyByte, TopBit, Word, Join, SignedWord;
    forall i: nat
      ensures Word(key, false, i) == Word(key, true, i) <==> OnlyAfterOnes(key, i)
    {
      WordIsJoin(key, false, i);
      WordIsJoin(key, true, i);
      ReadingsAgreeIff(KeyByte(key, 4 * i), KeyByte(key, 4 * i + 1), KeyByte(key, 4 * i + 2), KeyByte(key, 4 * i + 3));
    }
  }

  /** Where the safety measure fires, the resulting state comes from no key under any other prefix. */
  lemma FiredStateIsUnique(key: Key, other: Key, flags: bv8, p: Subkeys)
    requires Fires(key)
    requires flags == FLAGS_B || flags == FLAGS_X || flags == FLAGS_Y
    ensures (Expanded(key, false), Initial(key, FLAGS_A, p)) != (Expanded(other, flags & 1 != 0), Initial(other, flags, p))
  {
    hide Word, Fires;
    var e, e' := Expanded(key, false), Expanded(other, flags & 1 != 0);
    var x, x' := Initial(key, FLAGS_A, p), Initial(other, flags, p);
    assert Flip(key, FLAGS_A) == 0x10000 && Flip(other, flags) == 0;
    assert x[0] == Xor(Xor(p[0], e[0]), 0x10000) && x'[0] == Xor(Xor(p[0], e'[0]), 0);
    FlipChanges(Xor(p[0], e[0]));
  }

  lemma FlipChanges(a: word)
    ensures Xor(a, 0x10000) != Xor(a, 0)
  {
  }

  // ---------------------------------------------------------------- which keys are the same key

  /** The first 72 bytes of the key and its NUL. */
  function Significant(key: Key): seq<bv8> {
    if |key| < 72 then key + [0] else key[..72]
  }

  /** Equal expanded keys mean equal bytes at the first 72 steps. */
  lemma ExpandedEqualIff(a: Key, b: Key)
    ensures Expanded(a, false) == Expanded(b, false) <==> forall k: nat :: k < 72 ==> KeyByte(a, k) == KeyByte(b, k)
  {
    hide KeyByte, Word;
    if forall k: nat :: k < 72 ==> KeyByte(a, k) == KeyByte(b, k) {
      forall i: nat | i < 18
        ensures Word(a, false, i) == Word(b, false, i)
      {
        WordIsJoin(a, false, i);
        WordIsJoin(b, false, i);
      }
    }
    if Expanded(a, false) == Expanded(b, false) {
      forall k: nat | k < 72
        ensures KeyByte(a, k) == KeyByte(b, k)
      {
        var i := k / 4;
        assert Expanded(a, false)[i] == Word(a, false, i) && Expanded(b, false)[i] == Word(b, false, i);
        WordIsJoin(a, false, i);
        WordIsJoin(b, false, i);
        hide Join;
        JoinInjective(KeyByte(a, 4 * i), KeyByte(a, 4 * i + 1), KeyByte(a, 4 * i + 2), KeyByte(a, 4 * i + 3),
                      KeyByte(b, 4 * i), KeyByte(b, 4 * i + 1), KeyByte(b, 4 * i + 2), KeyByte(b, 4 * i + 3));
        assert k == 4 * i || k == 4 * i + 1 || k == 4 * i + 2 || k == 4 * i + 3;
      }
    }
  }

  /** Up to its NUL the repeated key is the key. */
  lemma FirstReading(key: Key, k: nat)
    requires k <= |key|
    ensures KeyByte(key, k) == CharAt(key, k)
  {
  }

  lemma SameStreamSamePrefix(a: Key, b: Key)
    requires forall k: nat :: k < 72 ==> KeyByte(a, k) == KeyByte(b, k)
    requires |a| <= |b|
    ensures Significant(a) == Significant(b)
  {
    hide KeyByte;
    forall k: nat | k < 72 && k <= |a|
      ensures CharAt(a, k) == CharAt(b, k)
    {
      FirstReading(a, k);
      FirstReading(b, k);
    }
    if |a| < 72 {
      assert CharAt(b, |a|) == 0;
      assert |b| == |a|;
      assert forall k :: 0 <= k < |a| ==> a[k] == CharAt(a, k) && b[k] == CharAt(b, k);
      assert a == b;
    } else {
      assert forall k :: 0 <= k < 72 ==> a[k] == CharAt(a, k) && b[k] == CharAt(b, k);
      assert a[..72] == b[..72];
    }
  }

  lemma SamePrefixSameStream(a: Key, b: Key, k: nat)
    requires Significant(a) == Significant(b) && k < 72
    ensures KeyByte(a, k) == KeyByte(b, k)
  {
    if |a| < 72 {
      SameShortKey(a, b);
    } else if |b| < 72 {
      SameShortKey(b, a);
    } else {
      FirstReading(a, k);
      FirstReading(b, k);
      assert a[k] == Significant(a)[k] && b[k] == Significant(b)[k];
    }
  }

  lemma SameShortKey(a: Key, b: Key)
    requires Significant(a) == Significant(b) && |a| < 72
    ensures a == b
  {
    NulIfShort(a);
    NulIfShort(b);
    assert a == Significant(a)[..|a|] && b == Significant(b)[..|b|];
  }

  lemma NulIfShort(key: Key)
    ensures 0 in Significant(key) <==> |key| < 72
  {
    if |key| < 72 {
      assert Significant(key)[|key|] == 0;
    }
  }

  /** Two keys expand to the same key exactly if they agree on the first 72 bytes of key and NUL. */
  lemma SameKeyIff(a: Key, b: Key)
    ensures Expanded(a, false) == Expanded(b, false) <==> Significant(a) == Significant(b)
  {
    ExpandedEqualIff(a, b);
    hide Expanded, KeyByte, Significant;
    if Significant(a) == Significant(b) {
      forall k: nat | k < 72
        ensures KeyByte(a, k) == KeyByte(b, k)
      {
        SamePrefixSameStream(a, b, k);
      }
    } else if Expanded(a, false) == Expanded(b, false) {
      if |a| <= |b| {
        SameStreamSamePrefix(a, b);
      } else {
        SameStreamSamePrefix(b, a);
      }
    }
  }
}
