/** The expensive key schedule of bcrypt (section 4 of Provos and Mazieres, "A Future-Adaptable Password
    Scheme", USENIX 1999): the plain definition, and the pointer-stepped, unrolled loops that compute it
    (Server/lib/crypt_blowfish/crypt_blowfish.c, Server/lib/crypt_blowfish/x86.S). */
module Eksblowfish {
  import opened Blowfish

  datatype State = State(p: Subkeys, s: SBoxes)

  /** The salt: two halves of two words each. */
  type Salt = s: seq<word> | |s| == 4 witness [0, 0, 0, 0]

  const ZERO: Block := Block(0, 0)
  const NO_SALT: Salt := [0, 0, 0, 0]

  // ---------------------------------------------------------------- the plain definition

  /** The table is a line of 521 blocks: nine of subkeys, then 512 of S-box words. */
  const BLOCKS: nat := 521

  function Put(st: State, j: nat, b: Block): State
    requires j < BLOCKS
  {
    if j < 9 then st.(p := st.p[2 * j := b.l][2 * j + 1 := b.r])
    else st.(s := st.s[2 * j - 18 := b.l][2 * j - 17 := b.r])
  }

  function At(st: State, j: nat): Block
    requires j < BLOCKS
  {
    if j < 9 then Block(st.p[2 * j], st.p[2 * j + 1]) else Block(st.s[2 * j - 18], st.s[2 * j - 17])
  }

  function XorBlock(a: Block, b: Block): Block {
    Block(Xor(a.l, b.l), Xor(a.r, b.r))
  }

  function Half(salt: Salt, j: nat): Block {
    if j % 2 == 0 then Block(salt[0], salt[1]) else Block(salt[2], salt[3])
  }

  /** The state and the last output after j blocks: block after block is encrypted with the tables as
      they are at the moment, and its output replaces the next two words. */
  function Filled(st: State, salt: Salt, j: nat): (State, Block)
    requires j <= BLOCKS
  {
    if j == 0 then (st, ZERO)
    else
      var (t, c) := Filled(st, salt, j - 1);
      var b := Encrypt(t.p, t.s, XorBlock(c, Half(salt, j - 1)));
      (Put(t, j - 1, b), b)
  }

  function XorKey(st: State, key: Subkeys): State {
    st.(p := seq(18, i requires 0 <= i < 18 => Xor(st.p[i], key[i])))
  }

  /** ExpandKey without a salt. */
  function ExpandKey(st: State, key: Subkeys): State {
    Filled(XorKey(st, key), NO_SALT, BLOCKS).0
  }

  /** The salt, repeated to the length of the subkeys. */
  function SaltKey(salt: Salt): Subkeys {
    seq(18, i requires 0 <= i < 18 => salt[i % 4])
  }

  /** n times: ExpandKey with the key, then with the salt. */
  function Cycles(st: State, key: Subkeys, salt: Salt, n: nat): State {
    if n == 0 then st else ExpandKey(ExpandKey(Cycles(st, key, salt, n - 1), key), SaltKey(salt))
  }

  /** EksBlowfishSetup: one ExpandKey with the key and the salt, then n cycles. */
  function EksBlowfishSetup(st: State, key: Subkeys, salt: Salt, n: nat): State {
    Cycles(Filled(XorKey(st, key), salt, BLOCKS).0, key, salt, n)
  }

  /** The same from tables whose subkeys have already been combined with the key. */
  function Setup(st: State, key: Subkeys, salt: Salt, n: nat): State {
    Cycles(Filled(st, salt, BLOCKS).0, key, salt, n)
  }

  function Iterated(st: State, b: Block, n: nat): Block {
    if n == 0 then b else Encrypt(st.p, st.s, Iterated(st, b, n - 1))
  }

  /** Combining the subkeys with a key twice leaves them as they were; zero subkeys become the key. */
  lemma XorKeyMeaning(st: State, key: Subkeys)
    ensures XorKey(XorKey(st, key), key) == st
    ensures (forall i :: 0 <= i < 18 ==> st.p[i] == 0) ==> XorKey(st, key).p == key
  {
    hide Xor;
    forall i | 0 <= i < 18
      ensures Xor(Xor(st.p[i], key[i]), key[i]) == st.p[i] && Xor(0, key[i]) == key[i]
    {
      XorCancels(st.p[i], key[i]);
      XorCommutes(0, key[i]);
      XorZero(key[i]);
    }
    assert XorKey(XorKey(st, key), key).p == st.p;
  }

  /** The halves of the salt in turn are the words that the subkeys are combined with. */
  lemma HalvesAreSaltKey(salt: Salt, j: nat)
    requires j < 9
    ensures Half(salt, j) == Block(SaltKey(salt)[2 * j], SaltKey(salt)[2 * j + 1])
  {
  }

  /** The first cycle uses the key first and the salt second. */
  lemma {:induction false} CyclesFromFront(st: State, key: Subkeys, salt: Salt, n: nat)
    ensures Cycles(st, key, salt, n + 1) == Cycles(ExpandKey(ExpandKey(st, key), SaltKey(salt)), key, salt, n)
  {
    hide ExpandKey, SaltKey;
    if n > 0 {
      CyclesFromFront(st, key, salt, n - 1);
    }
  }

  // ---------------------------------------------------------------- each word is written once

  /** A pass writes the words of block i at its step i, with that step's output, and never again; the
      words of later blocks are still the old ones. */
  lemma {:induction false} WrittenOnce(st: State, salt: Salt, j: nat, i: nat)
    requires j <= BLOCKS && i < BLOCKS
    ensures At(Filled(st, salt, j).0, i) == if i < j then Filled(st, salt, i + 1).1 else At(st, i)
  {
    hide *;
    FilledNothing(st, salt);
    if j > 0 {
      WrittenOnce(st, salt, j - 1, i);
      WrittenStep(st, salt, j - 1, i);
    }
  }

  lemma WrittenStep(st: State, salt: Salt, j: nat, i: nat)
    requires j < BLOCKS && i < BLOCKS
    ensures At(Filled(st, salt, j + 1).0, i) == if i == j then Filled(st, salt, j + 1).1 else At(Filled(st, salt, j).0, i)
  {
    FilledStep(st, salt, j);
    hide *;
    PutAt(Filled(st, salt, j).0, j, Filled(st, salt, j + 1).1, i);
  }

  lemma PutAt(st: State, j: nat, b: Block, i: nat)
    requires j < BLOCKS && i < BLOCKS
    ensures At(Put(st, j, b), i) == if i == j then b else At(st, i)
  {
  }

  lemma FilledStep(st: State, salt: Salt, j: nat)
    requires j < BLOCKS
    ensures var (t, c) := Filled(st, salt, j);
            var b := Encrypt(t.p, t.s, XorBlock(c, Half(salt, j)));
            Filled(st, salt, j + 1) == (Put(t, j, b), b)
  {
  }

  // ---------------------------------------------------------------- the loops

  /** The tables in memory. */
  class Ctx {
    const P: array<word>
    const S: array<word>

    ghost predicate Valid()
      reads this
    {
      P.Length == 18 && S.Length == 1024 && P != S
    }

    function View(): State
      requires Valid()
      reads this, P, S
    {
      State(P[..], S[..])
    }

    constructor (st: State)
      ensures Valid() && View() == st && fresh(P) && fresh(S)
    {
      P := new word[18](i requires 0 <= i < 18 => st.p[i]);
      S := new word[1024](i requires 0 <= i < 1024 => st.s[i]);
      new;
      assert P[..] == st.p && S[..] == st.s;
    }

    /** BF_ENCRYPT on the two halves. */
    method BfEncrypt(l: word, r: word) returns (l': word, r': word)
      requires Valid()
      ensures Block(l', r') == Encrypt(P[..], S[..], Block(l, r))
    {
      BfEncryptIsEncrypt(P[..], S[..], Block(l, r));
      hide Blowfish.BfEncrypt, Encrypt;
      var b := Blowfish.BfEncrypt(P[..], S[..], Block(l, r));
      l', r' := b.l, b.r;
    }

    /** Two words of the subkeys, or of the S-boxes, are replaced. */
    method StoreP(i: nat, l: word, r: word)
      requires Valid() && i < 18 && i % 2 == 0
      modifies P
      ensures View() == Put(old(View()), i / 2, Block(l, r))
    {
      P[i] := l;
      P[i + 1] := r;
    }

    method StoreS(i: nat, l: word, r: word)
      requires Valid() && i < 1024 && i % 2 == 0
      modifies S
      ensures View() == Put(old(View()), 9 + i / 2, Block(l, r))
    {
      S[i] := l;
      S[i + 1] := r;
    }

    /** The salted pass of BF_crypt: the loop over the subkeys, and the loop over the S-boxes. */
    method FillSalted(salt: Salt)
      requires Valid()
      modifies P, S
      ensures View() == Filled(old(View()), salt, BLOCKS).0
    {
      hide Filled;
      var l, r := SaltP(salt);
      SaltS(salt, l, r, old(View()));
    }

    method SaltP(salt: Salt) returns (l: word, r: word)
      requires Valid()
      modifies P
      ensures (View(), Block(l, r)) == Filled(old(View()), salt, 9)
    {
      hide Filled, Encrypt, Xor, Put;
      ghost var st := View();
      FilledNothing(st, salt);
      l, r := 0, 0;
      var i := 0;
      while i < 18
        invariant i % 2 == 0 && i <= 18
        invariant (View(), Block(l, r)) == Filled(st, salt, i / 2)
      {
        FilledStep(st, salt, i / 2);
        l, r := Xor(l, salt[i % 4]), Xor(r, salt[i % 4 + 1]);
        l, r := BfEncrypt(l, r);
        StoreP(i, l, r);
        i := i + 2;
      }
    }

    /** Two blocks at a time, from where the loop over the subkeys has come to. */
    method SaltS(salt: Salt, l0: word, r0: word, ghost st: State)
      requires Valid() && (View(), Block(l0, r0)) == Filled(st, salt, 9)
      modifies S
      ensures View() == Filled(st, salt, BLOCKS).0
    {
      hide Filled, Half;
      var l, r := l0, r0;
      var ptr := 0;
      ghost var m := 0;
      while ptr < 1023
        invariant 0 <= m <= 256 && ptr == 4 * m
        invariant (View(), Block(l, r)) == Filled(st, salt, 9 + 2 * m)
      {
        HalvesAt(salt, m);
        ptr := ptr + 4;
        l, r := SaltBlock(ptr - 4, salt[2], salt[3], l, r, salt, st, 2 * m);
        l, r := SaltBlock(ptr - 2, salt[0], salt[1], l, r, salt, st, 2 * m + 1);
        m := m + 1;
      }
    }

    /** Block j of the S-boxes, with the salt half (a, b). */
    method SaltBlock(ptr: nat, a: word, b: word, l: word, r: word, ghost salt: Salt, ghost st: State, ghost j: nat)
      returns (l': word, r': word)
      requires Valid() && ptr < 1024 && ptr == 2 * j && Half(salt, 9 + j) == Block(a, b)
      requires (View(), Block(l, r)) == Filled(st, salt, 9 + j)
      modifies S
      ensures (View(), Block(l', r')) == Filled(st, salt, 10 + j)
    {
      hide Filled, Encrypt, Xor, Put, Half;
      FilledStep(st, salt, 9 + j);
      l', r' := Xor(l, a), Xor(r, b);
      l', r' := BfEncrypt(l', r');
      StoreS(ptr, l', r');
    }

    /** BF_body: a pass without salt, one block at a time. */
    method Body()
      requires Valid()
      modifies P, S
      ensures View() == Filled(old(View()), NO_SALT, BLOCKS).0
    {
      hide Filled, Encrypt, Put;
      ghost var st := View();
      FilledNothing(st, NO_SALT);
      var l, r: word := 0, 0;
      var ptr := 0;
      while ptr < 18
        invariant 0 <= ptr <= 18 && ptr % 2 == 0
        invariant (View(), Block(l, r)) == Filled(st, NO_SALT, ptr / 2)
      {
        PlainFilledStep(st, ptr / 2);
        ptr := ptr + 2;
        l, r := BfEncrypt(l, r);
        StoreP(ptr - 2, l, r);
      }
      ptr := 0;
      while ptr < 1023
        invariant 0 <= ptr <= 1024 && ptr % 2 == 0
        invariant (View(), Block(l, r)) == Filled(st, NO_SALT, 9 + ptr / 2)
      {
        PlainFilledStep(st, 9 + ptr / 2);
        ptr := ptr + 2;
        l, r := BfEncrypt(l, r);
        StoreS(ptr - 2, l, r);
      }
    }

    /** _BF_body_r of x86.S: the loop over the S-boxes does four blocks at a time, with the x86 round. */
    method X86Body()
      requires Valid()
      modifies P, S
      ensures View() == Filled(old(View()), NO_SALT, BLOCKS).0
    {
      hide Filled, Encrypt, Put;
      ghost var st := View();
      FilledNothing(st, NO_SALT);
      var l, r: word := 0, 0;
      var ptr := 0;
      while ptr < 18
        invariant 0 <= ptr <= 18 && ptr % 2 == 0
        invariant (View(), Block(l, r)) == Filled(st, NO_SALT, ptr / 2)
      {
        PlainFilledStep(st, ptr / 2);
        l, r := X86Block(l, r);
        StoreP(ptr, l, r);
        ptr := ptr + 2;
      }
      ptr := 0;
      while ptr < 1024
        invariant 0 <= ptr <= 1024 && ptr % 8 == 0
        invariant (View(), Block(l, r)) == Filled(st, NO_SALT, 9 + ptr / 2)
      {
        l, r := X86StoreS(ptr, l, r, st);
        l, r := X86StoreS(ptr + 2, l, r, st);
        l, r := X86StoreS(ptr + 4, l, r, st);
        l, r := X86StoreS(ptr + 6, l, r, st);
        ptr := ptr + 8;
      }
    }

    /** The next block of the S-boxes, at ptr. */
    method X86StoreS(ptr: nat, l: word, r: word, ghost st: State) returns (l': word, r': word)
      requires Valid() && ptr < 1024 && ptr % 2 == 0
      requires (View(), Block(l, r)) == Filled(st, NO_SALT, 9 + ptr / 2)
      modifies S
      ensures (View(), Block(l', r')) == Filled(st, NO_SALT, 10 + ptr / 2)
    {
      hide Filled, Encrypt, Put;
      PlainFilledStep(st, 9 + ptr / 2);
      l', r' := X86Block(l, r);
      StoreS(ptr, l', r');
    }

    method X86Block(l: word, r: word) returns (l': word, r': word)
      requires Valid()
      ensures Block(l', r') == Encrypt(P[..], S[..], Block(l, r))
    {
      X86EncryptAgrees(P[..], S[..], Block(l, r));
      BfEncryptIsEncrypt(P[..], S[..], Block(l, r));
      hide X86Encrypt, Blowfish.BfEncrypt, Encrypt;
      var b := X86Encrypt(P[..], S[..], Block(l, r));
      l', r' := b.l, b.r;
    }

    /** Two more words of the subkeys are combined with the key. */
    method XorTwo(i: nat, w: word, w': word, ghost p: Subkeys, ghost key: Subkeys)
      requires Valid() && i < 17 && w == key[i] && w' == key[i + 1] && P[..] == Mixed(p, key, i)
      modifies P
      ensures P[..] == Mixed(p, key, i + 2)
    {
      hide Xor;
      P[i] := Xor(P[i], w);
      P[i + 1] := Xor(P[i + 1], w');
    }

    /** The loop that combines the subkeys with the expanded key, two words at a time. */
    method XorExpanded(key: Subkeys)
      requires Valid()
      modifies P
      ensures View() == XorKey(old(View()), key)
    {
      ghost var st := View();
      MixedEnds(st, key);
      hide Mixed, XorKey;
      var i := 0;
      while i < 18
        invariant 0 <= i <= 18 && i % 2 == 0 && P[..] == Mixed(st.p, key, i)
      {
        XorTwo(i, key[i], key[i + 1], st.p, key);
        i := i + 2;
      }
    }

    /** The loop that combines the subkeys with the salt, four words at a time and then the last two. */
    method XorSalt(salt: Salt)
      requires Valid()
      modifies P
      ensures View() == XorKey(old(View()), SaltKey(salt))
    {
      ghost var st, key := View(), SaltKey(salt);
      MixedEnds(st, key);
      hide Mixed, XorKey, SaltKey;
      var tmp1, tmp2, tmp3, tmp4 := salt[0], salt[1], salt[2], salt[3];
      var i := 0;
      while i < 16
        invariant i in {0, 4, 8, 12, 16} && P[..] == Mixed(st.p, key, i)
      {
        SaltKeyAt(salt, i);
        XorTwo(i, tmp1, tmp2, st.p, key);
        XorTwo(i + 2, tmp3, tmp4, st.p, key);
        i := i + 4;
      }
      SaltKeyAt(salt, 16);
      XorTwo(16, tmp1, tmp2, st.p, key);
    }

    /** The schedule of BF_crypt: the salted pass, then count times a pass with the key and, through the
        flag done, one with the salt. */
    method Schedule(key: Subkeys, salt: Salt, count: nat)
      requires Valid() && count > 0
      modifies P, S
      ensures View() == Setup(old(View()), key, salt, count)
    {
      hide Filled, XorKey, SaltKey;
      ghost var st := View();
      FillSalted(salt);
      ghost var first := View();
      var left := count;
      while true
        invariant 0 < left <= count && View() == Cycles(first, key, salt, count - left)
        decreases left
      {
        ghost var before := View();
        XorExpanded(key);
        var done := false;
        while true
          invariant !done ==> View() == XorKey(before, key)
          invariant done ==> View() == XorKey(ExpandKey(before, key), SaltKey(salt))
          decreases !done
        {
          Body();
          if done {
            break;
          }
          done := true;
          XorSalt(salt);
        }
        assert View() == Cycles(first, key, salt, count - left + 1);
        left := left - 1;
        if left == 0 {
          break;
        }
      }
    }

    /** The 64 encryptions of one pair of words of the constant text. */
    method Encrypt64(l: word, r: word) returns (l': word, r': word)
      requires Valid()
      ensures Block(l', r') == Iterated(View(), Block(l, r), 64)
    {
      hide Encrypt;
      l', r' := l, r;
      var count := 64;
      while true
        invariant 0 < count <= 64 && Block(l', r') == Iterated(View(), Block(l, r), 64 - count)
        decreases count
      {
        l', r' := BfEncrypt(l', r');
        count := count - 1;
        if count == 0 {
          break;
        }
      }
    }
  }

  /** A step of a pass without salt. */
  lemma PlainFilledStep(st: State, j: nat)
    requires j < BLOCKS
    ensures var (t, c) := Filled(st, NO_SALT, j);
            var b := Encrypt(t.p, t.s, c);
            Filled(st, NO_SALT, j + 1) == (Put(t, j, b), b)
  {
    var c := Filled(st, NO_SALT, j).1;
    FilledStep(st, NO_SALT, j);
    NoSaltNoChange(c, j);
    hide Filled, XorBlock, Half, Encrypt, Put;
  }

  /** Subkeys of which the first i are combined with the key. */
  function Mixed(p: Subkeys, key: Subkeys, i: nat): Subkeys {
    seq(18, k requires 0 <= k < 18 => if k < i then Xor(p[k], key[k]) else p[k])
  }

  lemma MixedEnds(st: State, key: Subkeys)
    ensures Mixed(st.p, key, 0) == st.p && State(Mixed(st.p, key, 18), st.s) == XorKey(st, key)
  {
  }

  lemma SaltKeyAt(salt: Salt, i: nat)
    requires i % 4 == 0 && i < 18
    ensures SaltKey(salt)[i] == salt[0] && SaltKey(salt)[i + 1] == salt[1]
    ensures i < 16 ==> SaltKey(salt)[i + 2] == salt[2] && SaltKey(salt)[i + 3] == salt[3]
  {
    assert (i + 1) % 4 == 1 && (i + 2) % 4 == 2 && (i + 3) % 4 == 3;
  }

  lemma HalvesAt(salt: Salt, m: nat)
    ensures Half(salt, 9 + 2 * m) == Block(salt[2], salt[3]) && Half(salt, 9 + (2 * m + 1)) == Block(salt[0], salt[1])
  {
  }

  lemma NoSaltNoChange(c: Block, j: nat)
    ensures XorBlock(c, Half(NO_SALT, j)) == c
  {
  }

  lemma FilledNothing(st: State, salt: Salt)
    ensures Filled(st, salt, 0) == (st, ZERO)
  {
  }
}
