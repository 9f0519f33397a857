/** BF_crypt and the setting generator (Server/lib/crypt_blowfish/crypt_blowfish.c), and the password
    functions above them (Server/lib/bcrypt.c). */
module BfCrypt {
  import opened Options
  import opened Blowfish
  import opened Eksblowfish
  import opened BfCoder
  import opened SetKey

  datatype Error = ERANGE | EINVAL
  datatype Result = Ok(text: seq<bv8>) | Err(error: Error)

  /** The characters of a C string, without the terminating NUL. */
  type Text = t: seq<bv8> | 0 !in t witness []

  // ---------------------------------------------------------------- words in memory

  /** The word that the machine sees in four bytes of memory; little is its byte order. */
  function Load(a: bv8, b: bv8, c: bv8, d: bv8, little: bool): word {
    if little then (d as word << 24) | (c as word << 16) | (b as word << 8) | a as word
    else (a as word << 24) | (b as word << 16) | (c as word << 8) | d as word
  }

  /** The four bytes of memory that hold a word. */
  function Store(x: word, little: bool): (b: seq<bv8>)
    ensures |b| == 4
  {
    if little then [ByteD(x), ByteC(x), ByteB(x), ByteA(x)] else [ByteA(x), ByteB(x), ByteC(x), ByteD(x)]
  }

  /** The bytes of memory as words. */
  function Words(bytes: seq<bv8>, little: bool): (w: seq<word>)
    requires |bytes| % 4 == 0
    ensures |w| == |bytes| / 4
  {
    if bytes == [] then [] else [Load(bytes[0], bytes[1], bytes[2], bytes[3], little)] + Words(bytes[4..], little)
  }

  /** Words as bytes of memory. */
  function Memory(words: seq<word>, little: bool): (b: seq<bv8>)
    ensures |b| == 4 * |words|
  {
    if words == [] then [] else Store(words[0], little) + Memory(words[1..], little)
  }

  /** What BF_swap does to one word. */
  function Swap(x: word, little: bool): word {
    if little then
      var t := (x << 16) | (x >> 16);
      ((t & 0x00FF00FF) << 8) | ((t >> 8) & 0x00FF00FF)
    else x
  }

  function Swapped(words: seq<word>, little: bool): (w: seq<word>)
    ensures |w| == |words|
  {
    if words == [] then [] else [Swap(words[0], little)] + Swapped(words[1..], little)
  }

  /** Loading and storing undo each other, on either byte order. */
  lemma LoadStore(x: word, little: bool)
    ensures var b := Store(x, little); Load(b[0], b[1], b[2], b[3], little) == x
  {
    hide Load, ByteA, ByteB, ByteC, ByteD;
    LoadBytesBig(x);
    LoadBytesLittle(x);
  }

  lemma LoadBytesBig(x: word)
    ensures Load(ByteA(x), ByteB(x), ByteC(x), ByteD(x), false) == x
  {
  }

  lemma LoadBytesLittle(x: word)
    ensures Load(ByteD(x), ByteC(x), ByteB(x), ByteA(x), true) == x
  {
  }

  lemma StoreLoad(a: bv8, b: bv8, c: bv8, d: bv8, little: bool)
    ensures Store(Load(a, b, c, d, little), little) == [a, b, c, d]
  {
  }

  lemma {:induction false} WordsOfMemory(words: seq<word>, little: bool)
    ensures Words(Memory(words, little), little) == words
  {
    if words != [] {
      LoadStore(words[0], little);
      hide Load, Store;
      WordsOfMemory(words[1..], little);
      assert Memory(words, little)[4..] == Memory(words[1..], little);
      assert forall i :: 0 <= i < 4 ==> Memory(words, little)[i] == Store(words[0], little)[i];
    }
  }

  lemma {:induction false} MemoryOfWords(bytes: seq<bv8>, little: bool)
    requires |bytes| % 4 == 0
    ensures Memory(Words(bytes, little), little) == bytes
  {
    if bytes != [] {
      StoreLoad(bytes[0], bytes[1], bytes[2], bytes[3], little);
      hide Load, Store;
      MemoryOfWords(bytes[4..], little);
      assert Words(bytes, little)[1..] == Words(bytes[4..], little);
      assert bytes == [bytes[0], bytes[1], bytes[2], bytes[3]] + bytes[4..];
    }
  }

  /** The words of a key are the big-endian words of the bytes read. */
  lemma KeyWordIsBigEndian(key: Key, i: nat)
    ensures Word(key, false, i) ==
            Load(KeyByte(key, 4 * i), KeyByte(key, 4 * i + 1), KeyByte(key, 4 * i + 2), KeyByte(key, 4 * i + 3), false)
  {
    hide KeyByte, Join, Load;
    WordIsJoin(key, false, i);
    JoinIsLoad(KeyByte(key, 4 * i), KeyByte(key, 4 * i + 1), KeyByte(key, 4 * i + 2), KeyByte(key, 4 * i + 3));
  }

  lemma JoinIsLoad(a: bv8, b: bv8, c: bv8, d: bv8)
    ensures Join(a, b, c, d, false) == Load(a, b, c, d, false)
  {
  }

  lemma SwapLoaded(a: bv8, b: bv8, c: bv8, d: bv8, little: bool)
    ensures Swap(Load(a, b, c, d, little), little) == Load(a, b, c, d, false)
  {
  }

  lemma SwapBytes(x: word)
    ensures var y := Swap(x, true); ByteD(y) == ByteA(x) && ByteC(y) == ByteB(x) && ByteB(y) == ByteC(x) && ByteA(y) == ByteD(x)
  {
  }

  lemma StoreSwapped(x: word, little: bool)
    ensures Store(Swap(x, little), little) == Store(x, false)
  {
    SwapBytes(x);
    assert Swap(x, false) == x;
    hide ByteA, ByteB, ByteC, ByteD, Swap;
  }

  /** After BF_swap, memory holds the big-endian words of its bytes, on either byte order. */
  lemma {:induction false} SwapReadsBigEndian(bytes: seq<bv8>, little: bool)
    requires |bytes| % 4 == 0
    ensures Swapped(Words(bytes, little), little) == Words(bytes, false)
  {
    if bytes != [] {
      SwapLoaded(bytes[0], bytes[1], bytes[2], bytes[3], little);
      hide Swap, Load;
      SwapReadsBigEndian(bytes[4..], little);
      assert Words(bytes, little)[1..] == Words(bytes[4..], little);
    }
  }

  /** After BF_swap, the bytes in memory are those of the words in big-endian order, on either byte order. */
  lemma {:induction false} SwapWritesBigEndian(words: seq<word>, little: bool)
    ensures Memory(Swapped(words, little), little) == Memory(words, false)
  {
    if words != [] {
      StoreSwapped(words[0], little);
      hide Swap, Store;
      SwapWritesBigEndian(words[1..], little);
      assert Swapped(words, little)[1..] == Swapped(words[1..], little);
    }
  }

  lemma {:induction false} SwappedAt(words: seq<word>, little: bool, i: nat)
    requires i < |words|
    ensures Swapped(words, little)[i] == Swap(words[i], little)
  {
    hide Swap;
    if i > 0 {
      SwappedAt(words[1..], little, i - 1);
    }
  }

  /** BF_swap. */
  method BfSwap(x: array<word>, little: bool)
    requires x.Length > 0
    modifies x
    ensures x[..] == Swapped(old(x[..]), little)
  {
    hide Swap;
    ghost var was := x[..];
    forall i: nat | i < |was|
      ensures Swapped(was, little)[i] == Swap(was[i], little)
    {
      SwappedAt(was, little, i);
    }
    hide Swapped;
    if little {
      var i := 0;
      while true
        invariant 0 <= i < x.Length
        invariant forall k :: 0 <= k < x.Length ==> x[k] == if k < i then Swap(was[k], little) else was[k]
        decreases x.Length - i
      {
        x[i] := Swap(x[i], little);
        i := i + 1;
        if i == x.Length {
          break;
        }
      }
    } else {
      SwapNothing();
    }
    assert forall k :: 0 <= k < x.Length ==> x[..][k] == Swapped(was, little)[k];
  }

  lemma SwapNothing()
    ensures forall x :: Swap(x, false) == x
  {
  }

  // ---------------------------------------------------------------- settings

  /** flags_by_subtype: 0 for characters that name no variant. */
  function FlagsOf(c: bv8): bv8 {
    if c == 97 then FLAGS_A
    else if c == 98 then FLAGS_B
    else if c == 120 then FLAGS_X
    else if c == 121 then FLAGS_Y
    else 0
  }

  /** The variants: a asks for the safety measure, x for the emulated bug, b and y for neither. */
  lemma VariantMeaning(c: bv8)
    ensures FlagsOf(c) != 0 <==> c == 97 || c == 98 || c == 120 || c == 121
    ensures FlagsOf(c) & 1 != 0 <==> c == 120
    ensures FlagsOf(c) & 2 != 0 <==> c == 97
  {
  }

  predicate IsDigit(c: bv8) {
    48 <= c <= 57
  }

  /** A setting starts with a dollar sign, a 2, a variant, a dollar sign, two digits up to 31, and a dollar sign. */
  predicate Prefixed(s: seq<bv8>) {
    && |s| >= 7
    && s[0] == 36 && s[1] == 50 && FlagsOf(s[2]) != 0 && s[3] == 36
    && IsDigit(s[4]) && IsDigit(s[5]) && s[6] == 36
    && (s[4] < 51 || (s[4] == 51 && s[5] <= 49))
  }

  function Cost(s: seq<bv8>): nat
    requires |s| >= 7
  {
    (s[4] - 48) as nat * 10 + (s[5] - 48) as nat
  }

  function Pow2(n: nat): (r: nat)
    ensures r > 0
  {
    if n == 0 then 1 else 2 * Pow2(n - 1)
  }

  /** The iteration count as BF_crypt computes it. */
  function Shifted(cost: nat): word
    requires cost <= 31
  {
    (1 as word) << cost
  }

  lemma Twice(x: word)
    requires x < 0x8000_0000
    ensures (x << 1) as nat == 2 * (x as nat)
  {
  }

  lemma ShiftedFurther(cost: nat)
    requires cost < 31
    ensures Shifted(cost + 1) == Shifted(cost) << 1 && Shifted(cost) < 0x8000_0000
  {
  }

  /** For every cost a setting can have it is the power of two. */
  lemma {:induction false} ShiftedIsPower(cost: nat)
    requires cost <= 31
    ensures Shifted(cost) as nat == Pow2(cost)
  {
    if cost > 0 {
      ShiftedIsPower(cost - 1);
      ShiftedFurther(cost - 1);
      Twice(Shifted(cost - 1));
      hide Shifted;
    } else {
      ShiftedNothing();
    }
  }

  lemma ShiftedNothing()
    ensures Shifted(0) as nat == 1
  {
  }

  lemma CostFits(s: seq<bv8>)
    ensures Prefixed(s) ==> Cost(s) <= 31
  {
  }

  /** The test at the start of BF_crypt; it stops at the first character that is wrong, so at the NUL at
      the latest. */
  function TestPrefix(s: Text): bool {
    && CharAt(s, 0) == 36
    && CharAt(s, 1) == 50
    && 97 <= CharAt(s, 2) <= 122
    && FlagsOf(CharAt(s, 2)) != 0
    && CharAt(s, 3) == 36
    && 48 <= CharAt(s, 4) <= 51
    && 48 <= CharAt(s, 5) <= 57
    && !(CharAt(s, 4) == 51 && CharAt(s, 5) > 49)
    && CharAt(s, 6) == 36
  }

  lemma TestPrefixIff(s: Text)
    ensures TestPrefix(s) <==> Prefixed(s)
  {
  }

  // ---------------------------------------------------------------- the hash

  /** The constant text, as three blocks. */
  const MAGIC: seq<Block> := [Block(0x4F727068, 0x65616E42), Block(0x65686F6C, 0x64657253), Block(0x63727944, 0x6F756274)]

  /** The word consists of the four characters in big-endian order. */
  predicate Spells(x: word, text: string) {
    && |text| == 4
    && ByteA(x) as int == text[0] as int && ByteB(x) as int == text[1] as int
    && ByteC(x) as int == text[2] as int && ByteD(x) as int == text[3] as int
  }

  /** Together they read OrpheanBeholderScryDoubt. */
  lemma MagicIsText()
    ensures |MAGIC| == 3
    ensures Spells(MAGIC[0].l, "Orph") && Spells(MAGIC[0].r, "eanB")
    ensures Spells(MAGIC[1].l, "ehol") && Spells(MAGIC[1].r, "derS")
    ensures Spells(MAGIC[2].l, "cryD") && Spells(MAGIC[2].r, "oubt")
  {
    hide Spells;
    MagicStart();
    MagicMiddle();
    MagicEnd();
  }

  lemma MagicStart()
    ensures Spells(0x4F727068, "Orph") && Spells(0x65616E42, "eanB")
  {
  }

  lemma MagicMiddle()
    ensures Spells(0x65686F6C, "ehol") && Spells(0x64657253, "derS")
  {
  }

  lemma MagicEnd()
    ensures Spells(0x63727944, "cryD") && Spells(0x6F756274, "oubt")
  {
  }

  /** The final state of the tables for a key, 16 bytes of salt and a cost. */
  function Scheduled(key: Key, salt: seq<bv8>, cost: nat, flags: bv8, init: State): State
    requires |salt| == 16
  {
    Setup(State(Initial(key, flags, init.p), init.s), Expanded(key, flags & 1 != 0), Words(salt, false), Pow2(cost))
  }

  /** What BF_set_key leaves: the initial subkeys combined with the key, and bit 16 of the first one changed
      exactly if the safety measure is requested and called for. */
  lemma InitialIsCombined(key: Key, flags: bv8, st: State)
    ensures var combined := XorKey(st, Expanded(key, flags & 1 != 0)).p;
            var initial := Initial(key, flags, st.p);
            if flags & 2 != 0 && Fires(key) then
              Xor(initial[0], combined[0]) == 0x10000 && forall i :: 1 <= i < 18 ==> initial[i] == combined[i]
            else initial == combined
  {
    hide Word, Fires, Xor;
    var combined := XorKey(st, Expanded(key, flags & 1 != 0)).p;
    XorZero(combined[0]);
    XorCommutes(combined[0], 0x10000);
    XorCancels(0x10000, combined[0]);
    assert Initial(key, flags, st.p)[0] == Xor(combined[0], Flip(key, flags));
    assert forall i :: 1 <= i < 18 ==> Initial(key, flags, st.p)[i] == combined[i];
  }

  /** Unless the safety measure strikes, the final tables are those of the published setup with 1 << cost
      cycles; if it does, they are those of the setup without its first step, from the changed subkeys. */
  lemma ScheduledIsSetup(key: Key, salt: seq<bv8>, cost: nat, flags: bv8, init: State)
    requires |salt| == 16 && cost <= 31 && !(flags & 2 != 0 && Fires(key))
    ensures Scheduled(key, salt, cost, flags, init) ==
            EksBlowfishSetup(init, Expanded(key, flags & 1 != 0), Words(salt, false), Shifted(cost) as nat)
  {
    hide Initial, Expanded, Fires, Filled, Cycles, XorKey, Words, Shifted, Pow2;
    InitialIsCombined(key, flags, init);
    ShiftedIsPower(cost);
    KeyOnlySubkeys(init, Expanded(key, flags & 1 != 0));
  }

  lemma KeyOnlySubkeys(st: State, key: Subkeys)
    ensures State(XorKey(st, key).p, st.s) == XorKey(st, key)
  {
  }

  /** Each block of the constant text, encrypted 64 times, as 24 bytes in big-endian order. */
  function Raw(st: State): (b: seq<bv8>)
    ensures |b| == 24
  {
    var x, y, z := Iterated(st, MAGIC[0], 64), Iterated(st, MAGIC[1], 64), Iterated(st, MAGIC[2], 64);
    Memory([x.l, x.r, y.l, y.r, z.l, z.r], false)
  }

  /** The bytes that enter the text: all but the last. */
  function Hash(key: Key, salt: seq<bv8>, cost: nat, flags: bv8, init: State): (b: seq<bv8>)
    requires |salt| == 16
    ensures |b| == 23
  {
    Raw(Scheduled(key, salt, cost, flags, init))[..23]
  }

  /** The hash of a key: the prefix of the setting, the encoded salt and the encoded hash. The tables
      init stand for BF_init_state. */
  function Crypt(key: Key, setting: seq<bv8>, size: int, min: nat, init: State): Result {
    if size < 61 then Err(ERANGE)
    else if !Prefixed(setting) || Pow2(Cost(setting)) < min then Err(EINVAL)
    else
      match Decode(setting[7..], 16)
      case None => Err(EINVAL)
      case Some(salt) =>
        Ok(setting[..7] + Encode(salt) + Encode(Hash(key, salt, Cost(setting), FlagsOf(setting[2]), init)))
  }

  lemma {:induction false} IteratedFromFront(st: State, b: Block, n: nat)
    ensures Iterated(st, b, n + 1) == Iterated(st, Encrypt(st.p, st.s, b), n)
  {
    hide Encrypt;
    if n > 0 {
      IteratedFromFront(st, b, n - 1);
    }
  }

  lemma {:induction false} IteratedUndone(st: State, b: Block, n: nat)
    ensures Iterated(State(Reversed(st.p), st.s), Iterated(st, b, n), n) == b
  {
    hide Encrypt, Reversed;
    if n > 0 {
      var back := State(Reversed(st.p), st.s);
      var c := Iterated(st, b, n - 1);
      IteratedFromFront(back, Iterated(st, b, n), n - 1);
      DecryptEncrypt(st.p, st.s, c);
      IteratedUndone(st, b, n - 1);
    }
  }

  /** Decrypting the 24 bytes 64 times, block by block, gives the constant text back. */
  lemma RawIsEncryptedText(st: State)
    ensures var w, back := Words(Raw(st), false), State(Reversed(st.p), st.s);
            && Iterated(back, Block(w[0], w[1]), 64) == MAGIC[0]
            && Iterated(back, Block(w[2], w[3]), 64) == MAGIC[1]
            && Iterated(back, Block(w[4], w[5]), 64) == MAGIC[2]
  {
    hide Iterated, Words, Memory, Reversed;
    var x, y, z := Iterated(st, MAGIC[0], 64), Iterated(st, MAGIC[1], 64), Iterated(st, MAGIC[2], 64);
    WordsOfMemory([x.l, x.r, y.l, y.r, z.l, z.r], false);
    IteratedUndone(st, MAGIC[0], 64);
    IteratedUndone(st, MAGIC[1], 64);
    IteratedUndone(st, MAGIC[2], 64);
  }

  /** The prefixes $2a$ and $2b$ start from the same subkeys exactly as long as the safety measure is not
      called for, and then hash alike. */
  lemma PrefixesAgreeIff(key: Key, salt: seq<bv8>, cost: nat, init: State)
    requires |salt| == 16
    ensures Initial(key, FlagsOf(97), init.p) == Initial(key, FlagsOf(98), init.p) <==> !Fires(key)
    ensures Expanded(key, FlagsOf(97) & 1 != 0) == Expanded(key, FlagsOf(98) & 1 != 0)
    ensures !Fires(key) ==> Hash(key, salt, cost, FlagsOf(97), init) == Hash(key, salt, cost, FlagsOf(98), init)
    ensures Hash(key, salt, cost, FlagsOf(121), init) == Hash(key, salt, cost, FlagsOf(98), init)
  {
    VariantMeaning(97);
    VariantMeaning(98);
    VariantMeaning(121);
    hide Word, Fires, Xor, Setup, Raw, Words, Pow2;
    InitialIsCombined(key, FlagsOf(97), init);
    InitialIsCombined(key, FlagsOf(98), init);
    InitialIsCombined(key, FlagsOf(121), init);
    XorZero(XorKey(init, Expanded(key, false)).p[0]);
  }

  /** The three loops of 64 encryptions. */
  method FillOutput(ctx: Ctx, output: array<word>)
    requires ctx.Valid() && output.Length == 6 && output != ctx.P && output != ctx.S
    modifies output
    ensures Memory(output[..], false) == Raw(ctx.View())
  {
    hide Iterated, Memory;
    ghost var st := ctx.View();
    var i := 0;
    while i < 6
      invariant 0 <= i <= 6 && i % 2 == 0 && ctx.View() == st
      invariant forall k :: 0 <= k < i / 2 ==> Block(output[2 * k], output[2 * k + 1]) == Iterated(st, MAGIC[k], 64)
    {
      var l, r := ctx.Encrypt64(MAGIC[i / 2].l, MAGIC[i / 2].r);
      output[i] := l;
      output[i + 1] := r;
      i := i + 2;
    }
    var x, y, z := Iterated(st, MAGIC[0], 64), Iterated(st, MAGIC[1], 64), Iterated(st, MAGIC[2], 64);
    assert Block(output[2 * 0], output[2 * 0 + 1]) == x;
    assert Block(output[2 * 1], output[2 * 1 + 1]) == y;
    assert Block(output[2 * 2], output[2 * 2 + 1]) == z;
    assert output[..] == [x.l, x.r, y.l, y.r, z.l, z.r];
  }

  /** The key schedule and the hash, in memory of either byte order. */
  method HashBytes(key: Key, salt: seq<bv8>, count: word, ghost cost: nat, flags: bv8, init: State, little: bool)
    returns (b: seq<bv8>)
    requires |salt| == 16 && count as nat == Pow2(cost)
    ensures b == Hash(key, salt, cost, flags, init)
  {
    hide Expanded, Initial, Setup, Raw, Memory, Words, Swapped, Pow2;
    var start := Words(salt, little);
    var binary := new word[4](i requires 0 <= i < 4 => start[i]);
    assert binary[..] == start;
    BfSwap(binary, little);
    SwapReadsBigEndian(salt, little);
    var words: Salt := binary[..];

    var expanded, initial := new word[18], new word[18];
    BfSetKey(key, flags, init.p, expanded, initial);
    var ctx := new Ctx(State(initial[..], init.s));
    ctx.Schedule(expanded[..], words, count as nat);

    var output := new word[6];
    FillOutput(ctx, output);
    SwapWritesBigEndian(output[..], little);
    BfSwap(output, little);
    b := Memory(output[..], little)[..23];
  }

  /** BF_crypt, on a machine of either byte order. */
  method BfCrypt(key: Key, setting: Text, size: int, min: nat, init: State, little: bool) returns (r: Result)
    ensures r == Crypt(key, setting, size, min, init)
  {
    hide Encode, Decode, Hash, Pow2, Cost, Shifted;
    TestPrefixIff(setting);
    CostFits(setting);
    if size < 61 {
      return Err(ERANGE);
    }
    if !TestPrefix(setting) {
      return Err(EINVAL);
    }
    ShiftedIsPower(Cost(setting));
    var count := Shifted(Cost(setting));
    if count as nat < min {
      return Err(EINVAL);
    }
    var salt := BfDecode(setting[7..], 16);
    if salt.None? {
      return Err(EINVAL);
    }
    var hash := HashBytes(key, salt.value, count, Cost(setting), FlagsOf(setting[2]), init, little);
    SaltText(setting);
    var output := setting[..28] + [Itoa64(Atoi64(setting[28]) & 0x30)];
    var text := BfEncode(hash);
    r := Ok(output + text);
  }

  /** The first 29 characters of the output: the setting with the unused bits of its last character cleared. */
  lemma SaltText(setting: seq<bv8>)
    requires |setting| >= 7 && Decode(setting[7..], 16).Some?
    ensures |setting| >= 29
    ensures setting[..28] + [Itoa64(Atoi64(setting[28]) & 0x30)] == setting[..7] + Encode(Decode(setting[7..], 16).value)
  {
    EncodeDecode(setting[7..], 16);
    hide Encode, Decode, Itoa64, Atoi64;
    assert setting[..28] == setting[..7] + setting[7..][..21];
    assert setting[7..][21] == setting[28];
  }

  // ---------------------------------------------------------------- self-verification

  lemma {:induction false} EncodeIsText(s: seq<bv8>)
    ensures forall c :: c in Encode(s) ==> InAlphabet(c)
    decreases |s|
  {
    if |s| == 1 {
      SplitJoin(s[0], 0, 0);
      AtoiItoa(Six1(s[0]));
      AtoiItoa(Six2(s[0], 0));
    } else if |s| == 2 {
      SplitJoin(s[0], s[1], 0);
      AtoiItoa(Six1(s[0]));
      AtoiItoa(Six2(s[0], s[1]));
      AtoiItoa(Six3(s[1], 0));
    } else if |s| >= 3 {
      SplitJoin(s[0], s[1], s[2]);
      AtoiItoa(Six1(s[0]));
      AtoiItoa(Six2(s[0], s[1]));
      AtoiItoa(Six3(s[1], s[2]));
      AtoiItoa(Six4(s[2]));
      EncodeIsText(s[3..]);
    }
    hide Itoa64, Atoi64, Six1, Six2, Six3, Six4, InAlphabet, Byte1, Byte2, Byte3;
  }

  /** What every output is: 60 characters, none of them NUL, starting with the prefix of the setting. */
  lemma OutputShape(key: Key, setting: seq<bv8>, size: int, min: nat, init: State)
    requires Crypt(key, setting, size, min, init).Ok?
    ensures var o := Crypt(key, setting, size, min, init).text; |o| == 60 && o[..7] == setting[..7] && (0 !in setting ==> 0 !in o)
  {
    hide Encode, Decode, Hash, Prefixed, InAlphabet, Pow2, Cost, FlagsOf, Chars;
    SettingIsLong(setting);
    var salt := Decode(setting[7..], 16).value;
    var hash := Hash(key, salt, Cost(setting), FlagsOf(setting[2]), init);
    EncodeIsText(salt);
    EncodeIsText(hash);
    NulIsOutside();
    LengthsOfParts();
    PartsShape(setting, Encode(salt), Encode(hash));
  }

  lemma SettingIsLong(setting: seq<bv8>)
    ensures Prefixed(setting) ==> |setting| >= 7
  {
  }

  lemma LengthsOfParts()
    ensures Chars(16) == 22 && Chars(23) == 31
  {
  }

  lemma PartsShape(setting: seq<bv8>, a: seq<bv8>, b: seq<bv8>)
    requires |setting| >= 7 && 0 !in a && 0 !in b
    ensures var o := setting[..7] + a + b;
            |o| == 7 + |a| + |b| && o[..7] == setting[..7] && (0 !in setting ==> 0 !in o)
  {
  }

  /** A hash fed back as its own setting reproduces itself. */
  lemma SelfVerification(key: Key, setting: seq<bv8>, size: int, min: nat, init: State)
    requires Crypt(key, setting, size, min, init).Ok?
    ensures var o := Crypt(key, setting, size, min, init).text; Crypt(key, o, size, min, init) == Ok(o)
  {
    OutputIs(key, key, setting, size, min, init);
  }

  /** Another key reproduces the hash exactly if the 23 bytes that enter the text are the same. */
  lemma OutputIs(key: Key, other: Key, setting: seq<bv8>, size: int, min: nat, init: State)
    requires Crypt(key, setting, size, min, init).Ok?
    ensures var o, salt := Crypt(key, setting, size, min, init).text, Decode(setting[7..], 16).value;
            var cost, flags := Cost(setting), FlagsOf(setting[2]);
            Crypt(other, o, size, min, init) == Ok(o) <==> Hash(other, salt, cost, flags, init) == Hash(key, salt, cost, flags, init)
  {
    var o, salt := Crypt(key, setting, size, min, init).text, Decode(setting[7..], 16).value;
    var cost, flags := Cost(setting), FlagsOf(setting[2]);
    var h, h' := Hash(key, salt, cost, flags, init), Hash(other, salt, cost, flags, init);
    var head := setting[..7] + Encode(salt);
    OutputIsRead(setting, salt, h);
    DecodeEncode(h, []);
    DecodeEncode(h', []);
    hide Encode, Decode, Hash, Pow2, Prefixed, Cost, FlagsOf;
    assert Encode(h) + [] == Encode(h) && Encode(h') + [] == Encode(h');
    var o' := o[..7] + Encode(salt) + Encode(h');
    assert o == head + Encode(h) && Crypt(other, o, size, min, init) == Ok(o');
    assert o'[|head|..] == Encode(h') && o[|head|..] == Encode(h);
  }

  /** A text with the prefix of a setting is read as that setting. */
  lemma OutputIsRead(setting: seq<bv8>, salt: seq<bv8>, hash: seq<bv8>)
    requires Prefixed(setting) && |salt| == 16
    ensures var o := setting[..7] + Encode(salt) + Encode(hash);
            && o[..7] == setting[..7] && o[2] == setting[2] && Prefixed(o) && Cost(o) == Cost(setting)
            && Decode(o[7..], 16) == Some(salt)
  {
    DecodeEncode(salt, Encode(hash));
    HeadOf(setting, Encode(salt), Encode(hash));
    SamePrefix(setting, setting[..7] + Encode(salt) + Encode(hash));
    hide Encode, Decode, Prefixed, Cost;
  }

  lemma HeadOf(s: seq<bv8>, a: seq<bv8>, b: seq<bv8>)
    requires |s| >= 7
    ensures (s[..7] + a + b)[..7] == s[..7] && (s[..7] + a + b)[7..] == a + b && |s[..7] + a + b| >= 7
  {
  }

  lemma SamePrefix(s: seq<bv8>, t: seq<bv8>)
    requires |s| >= 7 && |t| >= 7 && s[..7] == t[..7]
    ensures Prefixed(s) == Prefixed(t) && Cost(s) == Cost(t) && s[2] == t[2]
  {
    hide FlagsOf, IsDigit;
    assert forall i :: 0 <= i < 7 ==> s[i] == s[..7][i] && t[i] == t[..7][i];
  }

  /** Keys that agree on the first 72 bytes of key and NUL have the same hash under every setting. */
  lemma SameSignificantSameHash(a: Key, b: Key, setting: seq<bv8>, size: int, min: nat, init: State)
    requires Significant(a) == Significant(b)
    ensures Crypt(a, setting, size, min, init) == Crypt(b, setting, size, min, init)
  {
    hide Significant, KeyByte;
    forall k: nat | k < 72
      ensures KeyByte(a, k) == KeyByte(b, k)
    {
      SamePrefixSameStream(a, b, k);
    }
    hide Word, SignedWord;
    forall bug, i: nat | i < 18
      ensures Word(a, bug, i) == Word(b, bug, i)
    {
      WordIsJoin(a, bug, i);
      WordIsJoin(b, bug, i);
    }
    forall i: nat | i < 18
      ensures SignedWord(a, i) == SignedWord(b, i)
    {
      SameSigned(a, b, i);
    }
    assert Fires(a) == Fires(b);
    hide Fires;
    assert forall flags, p :: Initial(a, flags, p) == Initial(b, flags, p);
    assert forall bug :: Expanded(a, bug) == Expanded(b, bug);
    hide Initial, Expanded, Setup, Raw, Words, Encode, Decode, Pow2;
  }

  lemma SameSigned(a: Key, b: Key, i: nat)
    requires i < 18 && forall k: nat :: k < 72 ==> KeyByte(a, k) == KeyByte(b, k)
    ensures SignedWord(a, i) == SignedWord(b, i)
  {
    hide KeyByte, TopBit;
    assert KeyByte(a, 4 * i + 1) == KeyByte(b, 4 * i + 1);
    assert KeyByte(a, 4 * i + 2) == KeyByte(b, 4 * i + 2);
    assert KeyByte(a, 4 * i + 3) == KeyByte(b, 4 * i + 3);
  }

  // ---------------------------------------------------------------- generated settings

  function Digit(n: nat): bv8
    requires n < 10
  {
    48 + n as bv8
  }

  /** _crypt_gensalt_blowfish_rn. */
  method GensaltBlowfish(prefix: Text, count: nat, input: seq<bv8>, outputSize: int) returns (r: Result)
    ensures r == Gensalt(prefix, count, input, outputSize)
  {
    hide Encode, Digit;
    if |input| < 16 || outputSize < 30
       || (count != 0 && (count < 4 || count > 31))
       || CharAt(prefix, 0) != 36 || CharAt(prefix, 1) != 50
       || (CharAt(prefix, 2) != 97 && CharAt(prefix, 2) != 98 && CharAt(prefix, 2) != 121)
    {
      return Err(if outputSize < 30 then ERANGE else EINVAL);
    }
    var cost := if count == 0 then 5 else count;
    var output := [36, 50];
    output := output + [CharAt(prefix, 2)];
    output := output + [36, Digit(cost / 10)];
    output := output + [Digit(cost % 10), 36];
    var text := BfEncode(input[..16]);
    r := Ok(output + text);
  }

  /** The setting for a variant, a cost and 16 bytes of salt. */
  function SettingFor(letter: bv8, cost: nat, salt: seq<bv8>): seq<bv8>
    requires cost < 100 && |salt| == 16
  {
    [36, 50, letter, 36, Digit(cost / 10), Digit(cost % 10), 36] + Encode(salt)
  }

  predicate KnownPrefix(prefix: seq<bv8>) {
    |prefix| >= 3 && prefix[0] == 36 && prefix[1] == 50 && prefix[2] in [97, 98, 121]
  }

  /** A count of 0 stands for 5. */
  function Gensalt(prefix: seq<bv8>, count: nat, input: seq<bv8>, outputSize: int): Result {
    if outputSize < 30 then Err(ERANGE)
    else if |input| >= 16 && KnownPrefix(prefix) && (count == 0 || 4 <= count <= 31) then
      Ok(SettingFor(prefix[2], if count == 0 then 5 else count, input[..16]))
    else Err(EINVAL)
  }

  lemma DigitValue(n: nat)
    requires n < 10
    ensures IsDigit(Digit(n)) && (Digit(n) - 48) as nat == n
    ensures n <= 3 ==> Digit(n) <= 51 && (Digit(n) == 51 ==> n == 3)
    ensures n <= 1 ==> Digit(n) <= 49
  {
    if n == 0 {} else if n == 1 {} else if n == 2 {} else if n == 3 {} else if n == 4 {}
    else if n == 5 {} else if n == 6 {} else if n == 7 {} else if n == 8 {} else {}
  }

  /** BF_crypt takes a generated setting apart into the cost and the bytes that it was made of. */
  lemma GeneratedSettingIsRead(letter: bv8, cost: nat, salt: seq<bv8>)
    requires letter in [97, 98, 121] && cost <= 31 && |salt| == 16
    ensures var s := SettingFor(letter, cost, salt);
            && |s| == 29 && 0 !in s && Prefixed(s) && Cost(s) == cost && s[2] == letter
            && Decode(s[7..], 16) == Some(salt)
  {
    hide Encode, Decode, Digit, InAlphabet, IsDigit, Chars;
    var s := SettingFor(letter, cost, salt);
    DigitValue(cost / 10);
    DigitValue(cost % 10);
    EncodeIsText(salt);
    NulIsOutside();
    LengthsOfParts();
    DecodeEncode(salt, []);
    assert s[7..] == Encode(salt) + [];
  }

  /** BF_crypt accepts every generated setting, and its output starts with that setting. */
  lemma GeneratedSettingWorks(key: Key, prefix: seq<bv8>, count: nat, input: seq<bv8>, outputSize: int, init: State)
    requires Gensalt(prefix, count, input, outputSize).Ok?
    ensures var s := Gensalt(prefix, count, input, outputSize).text;
            var cost := if count == 0 then 5 else count;
            Crypt(key, s, 64, 16, init) == Ok(s + Encode(Hash(key, input[..16], cost, FlagsOf(prefix[2]), init)))
  {
    var s := Gensalt(prefix, count, input, outputSize).text;
    var cost := if count == 0 then 5 else count;
    GeneratedSettingIsRead(prefix[2], cost, input[..16]);
    Pow2Grows(cost);
    hide Encode, Decode, Digit, Hash, Prefixed, Pow2, Cost;
    assert s[..7] + Encode(input[..16]) == s;
  }

  lemma Pow2Grows(n: nat)
    requires n >= 4
    ensures Pow2(n) >= 16
  {
  }

  // ---------------------------------------------------------------- bcrypt.c

  lemma OrXor(ret: bv8, a: bv8, b: bv8)
    ensures ret | (a ^ b) == 0 <==> ret == 0 && a == b
  {
  }

  /** timing_safe_strcmp is 0 exactly on equal strings. */
  method TimingSafeStrcmp(str1: Text, str2: Text) returns (ret: bv8)
    ensures ret == 0 <==> str1 == str2
  {
    if |str1| != |str2| {
      return 1;
    }
    ret := 0;
    for i := 0 to |str1|
      invariant ret == 0 <==> str1[..i] == str2[..i]
    {
      OrXor(ret, str1[i], str2[i]);
      ret := ret | (str1[i] ^ str2[i]);
      assert str1[..i + 1] == str1[..i] + [str1[i]] && str2[..i + 1] == str2[..i] + [str2[i]];
    }
    assert str1[..|str1|] == str1 && str2[..|str2|] == str2;
  }

  /** bcrypt_hashpw, with room for 64 characters and at least 16 rounds. */
  method BcryptHashpw(passwd: Key, salt: Text, init: State, little: bool) returns (hash: Result)
    ensures hash == Crypt(passwd, salt, 64, 16, init)
  {
    hash := BfCrypt(passwd, salt, 64, 16, init, little);
  }

  /** bcrypt_checkpw: -1 for a hash that is no setting, and otherwise 0 exactly if the password reproduces it. */
  method BcryptCheckpw(passwd: Key, hash: Text, init: State, little: bool) returns (ret: int)
    ensures ret == -1 <==> Crypt(passwd, hash, 64, 16, init).Err?
    ensures ret == 0 <==> Crypt(passwd, hash, 64, 16, init) == Ok(hash)
  {
    hide Crypt;
    var outhash := BcryptHashpw(passwd, hash, init, little);
    if outhash.Err? {
      return -1;
    }
    OutputShape(passwd, hash, 64, 16, init);
    var cmp := TimingSafeStrcmp(hash, outhash.text);
    ret := cmp as int;
    ZeroIsZero(cmp);
  }

  lemma ZeroIsZero(b: bv8)
    ensures b as int >= 0 && (b as int == 0 <==> b == 0)
  {
  }

  /** bcrypt_gensalt, from the bytes read: a factor outside 4..31 stands for 12. */
  method BcryptGensalt(factor: int, input: seq<bv8>) returns (r: Result)
    requires |input| == 16
    ensures r == Ok(SettingFor(97, if 4 <= factor <= 31 then factor else 12, input))
  {
    hide SettingFor;
    var workf := if factor < 4 || factor > 31 then 12 else factor;
    assert input[..16] == input;
    r := GensaltBlowfish([36, 50, 97, 36], workf, input, 64);
  }

  /** A password checked against its own hash is accepted, for every generated salt; the check accepts
      another password exactly if it has the same 23 bytes of hash. */
  lemma CheckAcceptsItsHash(passwd: Key, other: Key, factor: int, input: seq<bv8>, init: State)
    requires |input| == 16
    ensures var cost := if 4 <= factor <= 31 then factor else 12;
            var stored := Crypt(passwd, SettingFor(97, cost, input), 64, 16, init);
            && stored.Ok? && 0 !in stored.text
            && Crypt(passwd, stored.text, 64, 16, init) == stored
            && (Crypt(other, stored.text, 64, 16, init) == stored <==>
                Hash(other, input, cost, FLAGS_A, init) == Hash(passwd, input, cost, FLAGS_A, init))
  {
    var cost := if 4 <= factor <= 31 then factor else 12;
    var setting := SettingFor(97, cost, input);
    assert input[..16] == input;
    GeneratedSettingIsRead(97, cost, input);
    GeneratedSettingWorks(passwd, [36, 50, 97, 36], cost, input, 64, init);
    OutputIs(passwd, passwd, setting, 64, 16, init);
    OutputIs(passwd, other, setting, 64, 16, init);
    OutputShape(passwd, setting, 64, 16, init);
    hide Crypt, Hash, Encode, Decode, SettingFor, Prefixed, Pow2, Cost;
  }
}
