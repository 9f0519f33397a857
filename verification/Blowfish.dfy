/** One Blowfish encryption: the swap-free form of BF_ENCRYPT (Server/lib/crypt_blowfish/crypt_blowfish.c),
    the x86 form (Server/lib/crypt_blowfish/x86.S) and the cipher as it is published. */
module Blowfish {
  type word = bv32

  /** The 18 subkeys. */
  type Subkeys = p: seq<word> | |p| == 18 witness seq(18, _ => 0)

  /** The four S-boxes of 256 words each, one after the other. */
  type SBoxes = s: seq<word> | |s| == 1024 witness seq(1024, _ => 0)

  datatype Block = Block(l: word, r: word)

  // ---------------------------------------------------------------- words

  function Xor(a: word, b: word): word {
    a ^ b
  }

  lemma XorCommutes(a: word, b: word)
    ensures Xor(a, b) == Xor(b, a)
  {
  }

  lemma XorSwaps(a: word, b: word, c: word)
    ensures Xor(Xor(a, b), c) == Xor(Xor(a, c), b)
  {
    XorAssociates(a, b, c);
    XorAssociates(a, c, b);
    XorCommutes(b, c);
  }

  lemma XorAssociates(a: word, b: word, c: word)
    ensures Xor(Xor(a, b), c) == Xor(a, Xor(b, c))
  {
  }

  lemma XorCancels(a: word, b: word)
    ensures Xor(Xor(a, b), b) == a
  {
  }

  lemma XorZero(a: word)
    ensures Xor(a, 0) == a && Xor(a, a) == 0
  {
  }

  /** Addition and subtraction of words wrap around. */
  function Add(a: word, b: word): word {
    a + b
  }

  function Sub(a: word, b: word): word {
    a - b
  }

  // The operations are those of 32-bit machine words.

  lemma AddIsSum(a: word, b: word)
    ensures Add(a, b) == a + b
  {
  }

  lemma SubIsDifference(a: word, b: word)
    ensures Sub(a, b) == a - b
  {
  }

  lemma XorIsBitwise(a: word, b: word)
    ensures Xor(a, b) == a ^ b
  {
  }

  lemma AddCommutes(a: word, b: word)
    ensures Add(a, b) == Add(b, a)
  {
  }

  lemma AddCancels(a: word, b: word)
    ensures Sub(Add(a, b), b) == a
  {
    hide Sub;
    SumLess(a, b);
  }

  lemma SumLess(a: word, b: word)
    ensures Sub(a + b, b) == a
  {
  }

  // ---------------------------------------------------------------- the round function

  // The four bytes of a word, from the most significant one.

  function ByteA(x: word): bv8 { ((x >> 24) & 0xFF) as bv8 }

  function ByteB(x: word): bv8 { ((x >> 16) & 0xFF) as bv8 }

  function ByteC(x: word): bv8 { ((x >> 8) & 0xFF) as bv8 }

  function ByteD(x: word): bv8 { (x & 0xFF) as bv8 }

  /** Word i of S-box k. */
  function Box(s: SBoxes, k: nat, i: bv8): word
    requires k < 4
  {
    s[256 * k + i as int]
  }

  function Mix(a: word, b: word, c: word, d: word): word {
    Add(Xor(Add(a, b), c), d)
  }

  /** The published round function. */
  function F(s: SBoxes, x: word): word {
    Mix(Box(s, 0, ByteA(x)), Box(s, 1, ByteB(x)), Box(s, 2, ByteC(x)), Box(s, 3, ByteD(x)))
  }

  /** Taking the words off again, the last one first, leaves the word of the first S-box. */
  lemma FUndone(s: SBoxes, x: word)
    ensures Sub(Xor(Sub(F(s, x), Box(s, 3, ByteD(x))), Box(s, 2, ByteC(x))), Box(s, 1, ByteB(x))) == Box(s, 0, ByteA(x))
  {
    hide Add, Sub, Xor, Box, ByteA, ByteB, ByteC, ByteD;
    var a, b, c, d := Box(s, 0, ByteA(x)), Box(s, 1, ByteB(x)), Box(s, 2, ByteC(x)), Box(s, 3, ByteD(x));
    AddCancels(Xor(Add(a, b), c), d);
    XorCancels(Add(a, b), c);
    AddCancels(a, b);
  }

  // The mixing as each of the three forms writes it: the temporaries of the first BF_ROUND, those of the
  // second one, and the registers of x86.S.

  function MixIndexed(tmp1: word, tmp2: word, tmp3: word, tmp4: word): word {
    var sum := Add(tmp3, tmp4);
    var mixed := Xor(sum, tmp2);
    Add(mixed, tmp1)
  }

  function MixOffsets(tmp1: word, tmp2: word, tmp3: word, tmp4: word): word {
    Add(Xor(Add(tmp3, tmp4), tmp2), tmp1)
  }

  function MixRegisters(s0: word, s1: word, s2: word, s3: word): word {
    var tmp1 := Xor(Add(s0, s1), s2);
    Add(s3, tmp1)
  }

  lemma MixingsAgree(a: word, b: word, c: word, d: word)
    ensures MixIndexed(d, c, b, a) == Mix(a, b, c, d)
    ensures MixOffsets(d, c, b, a) == Mix(a, b, c, d)
    ensures MixRegisters(a, b, c, d) == Mix(a, b, c, d)
  {
    hide Add, Xor;
    AddCommutes(a, b);
    AddCommutes(d, Xor(Add(a, b), c));
  }

  /** The round function of the first BF_ROUND. */
  function FIndexed(s: SBoxes, x: word): word {
    MixIndexed(Box(s, 3, (x & 0xFF) as bv8), Box(s, 2, ((x >> 8) & 0xFF) as bv8),
               Box(s, 1, ((x >> 16) & 0xFF) as bv8), Box(s, 0, (x >> 24) as bv8))
  }

  /** BF_INDEX: the word at a byte offset into an S-box. */
  function BoxAt(s: SBoxes, k: nat, offset: word): word
    requires k < 4 && Aligned(offset)
  {
    Box(s, k, (offset >> 2) as bv8)
  }

  predicate Aligned(offset: word) {
    offset & 3 == 0 && offset >> 2 <= 0xFF
  }

  /** The round function of the second BF_ROUND, which computes byte offsets instead of indices. */
  function FByOffset(s: SBoxes, x: word): word {
    OffsetsAreAligned(x);
    MixOffsets(BoxAt(s, 3, (x & 0xFF) << 2), BoxAt(s, 2, (x >> 6) & 0x3FC),
               BoxAt(s, 1, (x >> 14) & 0x3FC), BoxAt(s, 0, (x >> 22) & 0x3FC))
  }

  lemma OffsetsAreAligned(x: word)
    ensures Aligned((x >> 22) & 0x3FC) && Aligned((x >> 14) & 0x3FC) && Aligned((x >> 6) & 0x3FC) && Aligned((x & 0xFF) << 2)
  {
  }

  lemma OffsetsAreIndices(x: word)
    ensures Aligned((x >> 22) & 0x3FC) && (((x >> 22) & 0x3FC) >> 2) as bv8 == ByteA(x)
    ensures Aligned((x >> 14) & 0x3FC) && (((x >> 14) & 0x3FC) >> 2) as bv8 == ByteB(x)
    ensures Aligned((x >> 6) & 0x3FC) && (((x >> 6) & 0x3FC) >> 2) as bv8 == ByteC(x)
    ensures Aligned((x & 0xFF) << 2) && (((x & 0xFF) << 2) >> 2) as bv8 == ByteD(x)
  {
  }

  lemma IndicesAreBytes(x: word)
    ensures (x & 0xFF) as bv8 == ByteD(x) && ((x >> 8) & 0xFF) as bv8 == ByteC(x)
    ensures ((x >> 16) & 0xFF) as bv8 == ByteB(x) && (x >> 24) as bv8 == ByteA(x)
  {
  }

  /** S(offset, i) of x86.S: the word i places after a byte offset into the line of S-boxes. */
  function WordAt(s: SBoxes, offset: nat, i: bv8): word
    requires offset <= 0xC00 && offset % 4 == 0
  {
    s[(offset + 4 * (i as nat)) / 4]
  }

  /** The round function of x86.S. */
  function FRegisters(s: SBoxes, x: word): word {
    MixRegisters(WordAt(s, 0, ByteA(x)), WordAt(s, 0x400, ByteB(x)), WordAt(s, 0x800, ByteC(x)), WordAt(s, 0xC00, ByteD(x)))
  }

  lemma WordsAreBoxes(s: SBoxes, k: nat, i: bv8)
    requires k < 4
    ensures 0x400 * k <= 0xC00 && (0x400 * k) % 4 == 0 && WordAt(s, 0x400 * k, i) == Box(s, k, i)
  {
    assert (0x400 * k + 4 * (i as nat)) / 4 == 256 * k + i as nat;
  }

  /** The two variants of BF_ROUND and the x86 round compute the published function. */
  lemma RoundVariantsAgree(s: SBoxes, x: word)
    ensures FIndexed(s, x) == F(s, x) && FByOffset(s, x) == F(s, x) && FRegisters(s, x) == F(s, x)
  {
    hide Mix, MixIndexed, MixOffsets, MixRegisters, Box, WordAt, ByteA, ByteB, ByteC, ByteD, Aligned;
    OffsetsAreIndices(x);
    IndicesAreBytes(x);
    WordsAreBoxes(s, 0, ByteA(x));
    WordsAreBoxes(s, 1, ByteB(x));
    WordsAreBoxes(s, 2, ByteC(x));
    WordsAreBoxes(s, 3, ByteD(x));
    MixingsAgree(Box(s, 0, ByteA(x)), Box(s, 1, ByteB(x)), Box(s, 2, ByteC(x)), Box(s, 3, ByteD(x)));
  }

  // ---------------------------------------------------------------- the published cipher

  /** One round: a subkey, the round function, and a swap of the halves. */
  function Round(p: Subkeys, s: SBoxes, c: Block, n: nat): Block
    requires n < 16
  {
    var l := Xor(c.l, p[n]);
    Block(Xor(c.r, F(s, l)), l)
  }

  /** The state after n rounds. */
  function Rounds(p: Subkeys, s: SBoxes, b: Block, n: nat): Block
    requires n <= 16
  {
    if n == 0 then b else Round(p, s, Rounds(p, s, b, n - 1), n - 1)
  }

  /** Sixteen rounds, the last swap undone, and the last two subkeys. */
  function Encrypt(p: Subkeys, s: SBoxes, b: Block): Block {
    var c := Rounds(p, s, b, 16);
    Block(Xor(c.r, p[17]), Xor(c.l, p[16]))
  }

  function Reversed(p: Subkeys): Subkeys {
    seq(18, i requires 0 <= i < 18 => p[17 - i])
  }

  lemma ReversedTwice(p: Subkeys)
    ensures Reversed(Reversed(p)) == p
  {
  }

  /** The state that decryption has reached when round n of encryption is the next to be undone. */
  function Mirror(p: Subkeys, c: Block, n: nat): Block
    requires n <= 16
  {
    Block(Xor(c.r, p[n + 1]), Xor(c.l, p[n]))
  }

  lemma RoundUndone(p: Subkeys, s: SBoxes, c: Block, n: nat)
    requires n < 16
    ensures Round(Reversed(p), s, Mirror(p, Round(p, s, c, n), n + 1), 15 - n) == Mirror(p, c, n)
  {
    hide F, Xor;
    var d := Round(p, s, c, n);
    XorCancels(d.r, p[n + 2]);
    var f := F(s, d.r);
    XorSwaps(Xor(c.r, f), p[n + 1], f);
    XorCancels(c.r, f);
  }

  lemma {:induction false} RoundsUndone(p: Subkeys, s: SBoxes, b: Block, n: nat)
    requires n <= 16
    ensures Rounds(Reversed(p), s, Encrypt(p, s, b), n) == Mirror(p, Rounds(p, s, b, 16 - n), 16 - n)
  {
    hide Round, Xor;
    if n > 0 {
      RoundsUndone(p, s, b, n - 1);
      RoundUndone(p, s, Rounds(p, s, b, 16 - n), 16 - n);
    }
  }

  /** Encrypting with the subkeys in reverse order undoes encryption. */
  lemma DecryptEncrypt(p: Subkeys, s: SBoxes, b: Block)
    ensures Encrypt(Reversed(p), s, Encrypt(p, s, b)) == b
  {
    hide Round, Xor;
    RoundsUndone(p, s, b, 16);
    assert Rounds(p, s, b, 0) == b;
    XorCancels(b.l, p[0]);
    XorCancels(b.r, p[1]);
  }

  /** For every state of the tables encryption is a bijection on blocks. */
  lemma EncryptIsBijection(p: Subkeys, s: SBoxes)
    ensures forall a, b :: Encrypt(p, s, a) == Encrypt(p, s, b) ==> a == b
    ensures forall c :: Encrypt(p, s, Encrypt(Reversed(p), s, c)) == c
  {
    hide Encrypt;
    forall a, b | Encrypt(p, s, a) == Encrypt(p, s, b)
      ensures a == b
    {
      DecryptEncrypt(p, s, a);
      DecryptEncrypt(p, s, b);
    }
    forall c
      ensures Encrypt(p, s, Encrypt(Reversed(p), s, c)) == c
    {
      ReversedTwice(p);
      DecryptEncrypt(Reversed(p), s, c);
    }
  }

  // ---------------------------------------------------------------- BF_ENCRYPT

  /** BF_ROUND: the next subkey is folded into the half that is being changed. */
  function BfRound(p: Subkeys, s: SBoxes, l: word, r: word, n: nat): word
    requires n < 16
  {
    Xor(Xor(r, p[n + 1]), FIndexed(s, l))
  }

  /** Two rounds of BF_ENCRYPT, which change the halves in turn instead of swapping them. */
  function TwoRounds(p: Subkeys, s: SBoxes, b: Block, n: nat): Block
    requires n < 15
  {
    var r := BfRound(p, s, b.l, b.r, n);
    Block(BfRound(p, s, r, b.l, n + 1), r)
  }

  /** Eight rounds of BF_ENCRYPT. */
  function EightRounds(p: Subkeys, s: SBoxes, b: Block, n: nat): Block
    requires n < 9
  {
    TwoRounds(p, s, TwoRounds(p, s, TwoRounds(p, s, TwoRounds(p, s, b, n), n + 2), n + 4), n + 6)
  }

  /** BF_ENCRYPT, whose sixteen rounds are written out. */
  function BfEncrypt(p: Subkeys, s: SBoxes, b: Block): Block {
    var c := EightRounds(p, s, EightRounds(p, s, Block(Xor(b.l, p[0]), b.r), 0), 8);
    Block(Xor(c.r, p[17]), c.l)
  }

  /** The swap-free state: the left half already has the next subkey. */
  function Folded(p: Subkeys, c: Block, n: nat): Block
    requires n <= 16
  {
    Block(Xor(c.l, p[n]), c.r)
  }

  lemma TwoRoundsFold(p: Subkeys, s: SBoxes, b: Block, n: nat)
    requires n < 15
    ensures TwoRounds(p, s, Folded(p, Rounds(p, s, b, n), n), n) == Folded(p, Rounds(p, s, b, n + 2), n + 2)
  {
    hide F, FIndexed, Xor;
    var c0, c1 := Rounds(p, s, b, n), Rounds(p, s, b, n + 1);
    assert Rounds(p, s, b, n + 2) == Round(p, s, c1, n + 1);
    RoundVariantsAgree(s, c1.r);
    RoundVariantsAgree(s, Xor(c1.l, p[n + 1]));
    XorSwaps(c0.r, p[n + 1], F(s, c1.r));
    XorSwaps(c1.r, p[n + 2], F(s, Xor(c1.l, p[n + 1])));
  }

  lemma EightRoundsFold(p: Subkeys, s: SBoxes, b: Block, n: nat)
    requires n < 9
    ensures EightRounds(p, s, Folded(p, Rounds(p, s, b, n), n), n) == Folded(p, Rounds(p, s, b, n + 8), n + 8)
  {
    hide TwoRounds, Rounds, Xor, Folded;
    TwoRoundsFold(p, s, b, n);
    TwoRoundsFold(p, s, b, n + 2);
    TwoRoundsFold(p, s, b, n + 4);
    TwoRoundsFold(p, s, b, n + 6);
  }

  /** BF_ENCRYPT is one Blowfish encryption. */
  lemma BfEncryptIsEncrypt(p: Subkeys, s: SBoxes, b: Block)
    ensures BfEncrypt(p, s, b) == Encrypt(p, s, b)
  {
    assert Rounds(p, s, b, 0) == b;
    hide EightRounds, Rounds, Xor;
    EightRoundsFold(p, s, b, 0);
    EightRoundsFold(p, s, b, 8);
  }

  // ---------------------------------------------------------------- the x86 form

  /** BF_ROUND of x86.S: the subkey loaded in the round before is applied where it is used. */
  function X86Round(s: SBoxes, key: word, l: word, r: word): Block {
    var l' := Xor(l, key);
    Block(l', Xor(r, FRegisters(s, l')))
  }

  /** The first n rounds, which take the halves in turn. */
  function X86Rounds(p: Subkeys, s: SBoxes, b: Block, n: nat): Block
    requires n <= 16
  {
    if n == 0 then b
    else
      var c := X86Rounds(p, s, b, n - 1);
      if n % 2 == 1 then X86Round(s, p[n - 1], c.l, c.r)
      else
        var d := X86Round(s, p[n - 1], c.r, c.l);
        Block(d.r, d.l)
  }

  /** BF_ENCRYPT_START and BF_ENCRYPT_END. */
  function X86Encrypt(p: Subkeys, s: SBoxes, b: Block): Block {
    var c := X86Rounds(p, s, b, 16);
    Block(Xor(p[17], c.r), Xor(c.l, p[16]))
  }

  lemma {:induction false} X86RoundsAreRounds(p: Subkeys, s: SBoxes, b: Block, n: nat)
    requires n <= 16
    ensures var c, d := X86Rounds(p, s, b, n), Rounds(p, s, b, n);
            c == if n % 2 == 0 then d else Block(d.r, d.l)
  {
    hide F, FRegisters, Xor;
    if n > 0 {
      X86RoundsAreRounds(p, s, b, n - 1);
      RoundVariantsAgree(s, Xor(Rounds(p, s, b, n - 1).l, p[n - 1]));
    }
  }

  /** The x86 form computes the same as BF_ENCRYPT. */
  lemma X86EncryptAgrees(p: Subkeys, s: SBoxes, b: Block)
    ensures X86Encrypt(p, s, b) == BfEncrypt(p, s, b)
  {
    X86RoundsAreRounds(p, s, b, 16);
    BfEncryptIsEncrypt(p, s, b);
    hide BfEncrypt, Rounds, X86Rounds, Xor;
    XorCommutes(p[17], X86Rounds(p, s, b, 16).r);
  }
}
