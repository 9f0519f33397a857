/** bcrypt's base64: BF_encode, BF_decode and their alphabet (Server/lib/crypt_blowfish/crypt_blowfish.c). */
module BfCoder {
  import opened Options

  /** The alphabet: '.', '/', then A-Z, a-z, 0-9. */
  function Itoa64(v: bv8): bv8 {
    if v < 2 then v + 46
    else if v < 28 then v + 63
    else if v < 54 then v + 69
    else v - 6
  }

  predicate InAlphabet(c: bv8) {
    46 <= c <= 57 || 65 <= c <= 90 || 97 <= c <= 122
  }

  /** The value of a character of the alphabet. */
  function Atoi64(c: bv8): bv8 {
    if c < 48 then c - 46
    else if c < 58 then c + 6
    else if c < 91 then c - 63
    else c - 69
  }

  const CAPITALS := "ABCDEFGHIJKLMNOPQRSTUVWXYZ"
  const SMALLS := "abcdefghijklmnopqrstuvwxyz"
  const DIGITS := "0123456789"

  /** BF_itoa64 as it is written. */
  const ALPHABET: string := "./" + CAPITALS + SMALLS + DIGITS

  function Codes(s: string): (r: seq<int>)
    ensures |r| == |s| && forall i :: 0 <= i < |r| ==> r[i] == s[i] as int
  {
    seq(|s|, i requires 0 <= i < |s| => s[i] as int)
  }

  function Run(first: int, n: nat): (r: seq<int>)
    ensures |r| == n && forall i :: 0 <= i < n ==> r[i] == first + i
  {
    seq(n, i requires 0 <= i < n => first + i)
  }

  lemma AlphabetRuns()
    ensures Codes("./") == Run(46, 2) && Codes(CAPITALS) == Run(65, 26) && Codes(SMALLS) == Run(97, 26) && Codes(DIGITS) == Run(48, 10)
  {
    CapitalRun();
    SmallRun();
  }

  lemma CapitalRun()
    ensures Codes(CAPITALS) == Run(65, 26)
  {
  }

  lemma SmallRun()
    ensures Codes(SMALLS) == Run(97, 26)
  {
  }

  lemma AlphabetCodes(n: nat)
    requires n < 64
    ensures |ALPHABET| == 64
    ensures ALPHABET[n] as int == if n < 2 then 46 + n else if n < 28 then 65 + (n - 2) else if n < 54 then 97 + (n - 28) else 48 + (n - 54)
  {
    AlphabetRuns();
    hide Codes, Run;
    assert n < 2 ==> Codes("./")[n] == 46 + n;
    assert 2 <= n < 28 ==> Codes(CAPITALS)[n - 2] == 65 + (n - 2);
    assert 28 <= n < 54 ==> Codes(SMALLS)[n - 28] == 97 + (n - 28);
    assert 54 <= n ==> Codes(DIGITS)[n - 54] == 48 + (n - 54);
  }

  lemma ItoaCodes(n: nat)
    requires n < 64
    ensures Itoa64(n as bv8) as int == if n < 2 then 46 + n else if n < 28 then 65 + (n - 2) else if n < 54 then 97 + (n - 28) else 48 + (n - 54)
  {
    CodesOfCapitals(n);
    CodesOfSmalls(n);
    CodesOfDigits(n);
    hide Itoa64;
  }

  lemma CodesOfCapitals(n: nat)
    ensures n < 2 ==> Itoa64(n as bv8) as int == 46 + n
    ensures 2 <= n < 28 ==> Itoa64(n as bv8) as int == 63 + n
  {
  }

  lemma CodesOfSmalls(n: nat)
    ensures 28 <= n < 54 ==> Itoa64(n as bv8) as int == 69 + n
  {
  }

  lemma CodesOfDigits(n: nat)
    ensures 54 <= n < 64 ==> Itoa64(n as bv8) as int == n - 6
  {
  }

  /** The closed form is the alphabet. */
  lemma ItoaIsAlphabet(n: nat)
    requires n < 64
    ensures |ALPHABET| == 64 && Itoa64(n as bv8) as int == ALPHABET[n] as int
  {
    AlphabetCodes(n);
    ItoaCodes(n);
    hide Itoa64;
  }

  lemma AtoiItoa(v: bv8)
    requires v < 64
    ensures InAlphabet(Itoa64(v)) && Atoi64(Itoa64(v)) == v
  {
  }

  lemma ItoaAtoi(c: bv8)
    requires InAlphabet(c)
    ensures Atoi64(c) < 64 && Itoa64(Atoi64(c)) == c
  {
  }

  /** The number of characters that encode size bytes. */
  function Chars(size: nat): nat {
    size / 3 * 4 + (if size % 3 == 0 then 0 else size % 3 + 1)
  }

  // ---------------------------------------------------------------- what the loops compute

  // Three bytes are cut into four groups of six bits.

  function Six1(a: bv8): bv8 { a >> 2 }

  function Six2(a: bv8, b: bv8): bv8 { ((a & 0x03) << 4) | (b >> 4) }

  function Six3(b: bv8, c: bv8): bv8 { ((b & 0x0f) << 2) | (c >> 6) }

  function Six4(c: bv8): bv8 { c & 0x3f }

  // Four groups are joined into three bytes.

  function Byte1(u: bv8, v: bv8): bv8 { (u << 2) | ((v & 0x30) >> 4) }

  function Byte2(v: bv8, w: bv8): bv8 { ((v & 0x0F) << 4) | ((w & 0x3C) >> 2) }

  function Byte3(w: bv8, x: bv8): bv8 { ((w & 0x03) << 6) | x }

  function Encode1(a: bv8): seq<bv8> {
    [Itoa64(Six1(a)), Itoa64(Six2(a, 0))]
  }

  function Encode2(a: bv8, b: bv8): seq<bv8> {
    [Itoa64(Six1(a)), Itoa64(Six2(a, b)), Itoa64(Six3(b, 0))]
  }

  function Encode3(a: bv8, b: bv8, c: bv8): seq<bv8> {
    [Itoa64(Six1(a)), Itoa64(Six2(a, b)), Itoa64(Six3(b, c)), Itoa64(Six4(c))]
  }

  function Encode(s: seq<bv8>): (r: seq<bv8>)
    ensures |r| == Chars(|s|)
  {
    if |s| == 0 then []
    else if |s| == 1 then Encode1(s[0])
    else if |s| == 2 then Encode2(s[0], s[1])
    else Encode3(s[0], s[1], s[2]) + Encode(s[3..])
  }

  /** The character at index i of a string is one of the alphabet; the terminating NUL is not. */
  predicate GoodAt(s: seq<bv8>, i: nat) {
    i < |s| && InAlphabet(s[i])
  }

  function Decoded1(s: seq<bv8>): bv8
    requires |s| >= 2
  {
    Byte1(Atoi64(s[0]), Atoi64(s[1]))
  }

  function Decoded2(s: seq<bv8>): bv8
    requires |s| >= 3
  {
    Byte2(Atoi64(s[1]), Atoi64(s[2]))
  }

  function Decoded3(s: seq<bv8>): bv8
    requires |s| >= 4
  {
    Byte3(Atoi64(s[2]), Atoi64(s[3]))
  }

  /** The size bytes decoded from the front of the string s, unless a character read is not in the alphabet. */
  function Decode(s: seq<bv8>, size: nat): (r: Option<seq<bv8>>)
    ensures r.Some? ==> |r.value| == size
  {
    if size == 0 then Some([])
    else if !GoodAt(s, 0) || !GoodAt(s, 1) then None
    else if size == 1 then Some([Decoded1(s)])
    else if !GoodAt(s, 2) then None
    else if size == 2 then Some([Decoded1(s), Decoded2(s)])
    else if !GoodAt(s, 3) then None
    else
      match Decode(s[4..], size - 3)
      case None => None
      case Some(rest) => Some([Decoded1(s), Decoded2(s), Decoded3(s)] + rest)
  }

  // ---------------------------------------------------------------- their meaning

  /** Decoding fails exactly if one of the characters it is to read is missing or not in the alphabet. */
  lemma {:induction false} DecodeFailsIff(s: seq<bv8>, size: nat)
    ensures Decode(s, size).None? <==> exists i: nat :: i < Chars(size) && !GoodAt(s, i)
    decreases size
  {
    if size >= 3 {
      assert Chars(size) == 4 + Chars(size - 3);
      if GoodAt(s, 0) && GoodAt(s, 1) && GoodAt(s, 2) && GoodAt(s, 3) {
        DecodeFailsIff(s[4..], size - 3);
        assert forall i: nat :: GoodAt(s[4..], i) <==> GoodAt(s, i + 4);
        if exists i: nat :: i < Chars(size) && !GoodAt(s, i) {
          var i: nat :| i < Chars(size) && !GoodAt(s, i);
          assert !GoodAt(s[4..], i - 4);
        }
      }
    } else if size == 2 {
      assert Chars(size) == 3;
    } else if size == 1 {
      assert Chars(size) == 2;
    }
  }

  lemma SplitJoin(a: bv8, b: bv8, c: bv8)
    ensures Six1(a) < 64 && Six2(a, b) < 64 && Six3(b, c) < 64 && Six4(c) < 64
    ensures Byte1(Six1(a), Six2(a, b)) == a && Byte2(Six2(a, b), Six3(b, c)) == b && Byte3(Six3(b, c), Six4(c)) == c
  {
  }

  /** Three bytes in a row are the same 24 bits as their four groups in a row. */
  lemma GroupsAreSextets(a: bv8, b: bv8, c: bv8)
    ensures (a as bv24 << 16) | (b as bv24 << 8) | c as bv24
         == (Six1(a) as bv24 << 18) | (Six2(a, b) as bv24 << 12) | (Six3(b, c) as bv24 << 6) | Six4(c) as bv24
  {
  }

  lemma JoinSplit(u: bv8, v: bv8, w: bv8, x: bv8)
    requires u < 64 && v < 64 && w < 64 && x < 64
    ensures var a, b, c := Byte1(u, v), Byte2(v, w), Byte3(w, x);
            && Six1(a) == u && Six2(a, 0) == v & 0x30
            && Six2(a, b) == v && Six3(b, 0) == w & 0x3C
            && Six3(b, c) == w && Six4(c) == x
    ensures x & 0x3F == x
  {
  }

  lemma Block1(a: bv8)
    ensures var e := Encode1(a); InAlphabet(e[0]) && InAlphabet(e[1]) && Decoded1(e) == a
  {
    SplitJoin(a, 0, 0);
    AtoiItoa(Six1(a));
    AtoiItoa(Six2(a, 0));
    hide Itoa64, Atoi64, InAlphabet, Six1, Six2, Byte1;
  }

  lemma Block2(a: bv8, b: bv8)
    ensures var e := Encode2(a, b);
            InAlphabet(e[0]) && InAlphabet(e[1]) && InAlphabet(e[2]) && Decoded1(e) == a && Decoded2(e) == b
  {
    SplitJoin(a, b, 0);
    AtoiItoa(Six1(a));
    AtoiItoa(Six2(a, b));
    AtoiItoa(Six3(b, 0));
    hide Itoa64, Atoi64, InAlphabet, Six1, Six2, Six3, Byte1, Byte2;
  }

  lemma Block3(a: bv8, b: bv8, c: bv8)
    ensures var e := Encode3(a, b, c);
            && InAlphabet(e[0]) && InAlphabet(e[1]) && InAlphabet(e[2]) && InAlphabet(e[3])
            && Decoded1(e) == a && Decoded2(e) == b && Decoded3(e) == c
  {
    SplitJoin(a, b, c);
    AtoiItoa(Six1(a));
    AtoiItoa(Six2(a, b));
    AtoiItoa(Six3(b, c));
    AtoiItoa(Six4(c));
    hide Itoa64, Atoi64, InAlphabet, Six1, Six2, Six3, Six4, Byte1, Byte2, Byte3;
  }

  /** Decoding undoes encoding, whatever follows the encoded text. */
  lemma {:induction false} DecodeEncode(s: seq<bv8>, rest: seq<bv8>)
    ensures Decode(Encode(s) + rest, |s|) == Some(s)
    decreases |s|
  {
    var e := Encode(s) + rest;
    if |s| == 1 {
      Block1(s[0]);
      hide Itoa64, Atoi64, Byte1, InAlphabet;
      assert s == [s[0]];
      assert e[0] == Encode1(s[0])[0] && e[1] == Encode1(s[0])[1];
    } else if |s| == 2 {
      Block2(s[0], s[1]);
      hide Itoa64, Atoi64, Byte1, Byte2, InAlphabet;
      assert s == [s[0], s[1]];
      var block := Encode2(s[0], s[1]);
      assert e[0] == block[0] && e[1] == block[1] && e[2] == block[2];
    } else if |s| >= 3 {
      Block3(s[0], s[1], s[2]);
      hide Itoa64, Atoi64, Byte1, Byte2, Byte3, InAlphabet;
      var block := Encode3(s[0], s[1], s[2]);
      assert e[0] == block[0] && e[1] == block[1] && e[2] == block[2] && e[3] == block[3];
      assert e[4..] == Encode(s[3..]) + rest;
      DecodeEncode(s[3..], rest);
      assert s == [s[0], s[1], s[2]] + s[3..];
    }
  }

  /** The bits of the last character that BF_decode looks at. */
  function LastMask(size: nat): bv8 {
    if size % 3 == 1 then 0x30 else if size % 3 == 2 then 0x3C else 0x3F
  }

  function Masked(c: bv8, size: nat): bv8 {
    Itoa64(Atoi64(c) & LastMask(size))
  }

  lemma Recoded(s: seq<bv8>)
    requires |s| >= 4 && InAlphabet(s[0]) && InAlphabet(s[1]) && InAlphabet(s[2]) && InAlphabet(s[3])
    ensures Encode1(Decoded1(s)) == [s[0], Itoa64(Atoi64(s[1]) & 0x30)]
    ensures Encode2(Decoded1(s), Decoded2(s)) == [s[0], s[1], Itoa64(Atoi64(s[2]) & 0x3C)]
    ensures Encode3(Decoded1(s), Decoded2(s), Decoded3(s)) == [s[0], s[1], s[2], s[3]]
    ensures Itoa64(Atoi64(s[3]) & 0x3F) == s[3]
  {
    ItoaAtoi(s[0]);
    ItoaAtoi(s[1]);
    ItoaAtoi(s[2]);
    ItoaAtoi(s[3]);
    JoinSplit(Atoi64(s[0]), Atoi64(s[1]), Atoi64(s[2]), Atoi64(s[3]));
    hide Itoa64, Atoi64, InAlphabet, Six1, Six2, Six3, Six4, Byte1, Byte2, Byte3;
  }

  /** Encoding what was decoded gives back the text, with the unused bits of its last character cleared. */
  lemma {:induction false} EncodeDecode(s: seq<bv8>, size: nat)
    requires size > 0 && Decode(s, size).Some?
    ensures var n := Chars(size);
            0 < n <= |s| && Encode(Decode(s, size).value) == s[..n - 1] + [Masked(s[n - 1], size)]
    decreases size
  {
    if size == 1 {
      hide Itoa64, Atoi64, InAlphabet, Byte1, Encode, Masked;
      Recoded1(s);
    } else if size == 2 {
      hide Itoa64, Atoi64, InAlphabet, Byte1, Byte2, Encode, Masked;
      Recoded2(s);
    } else {
      CharsStep(size);
      hide Itoa64, Atoi64, InAlphabet, Byte1, Byte2, Byte3, Chars;
      Recoded(s);
      var rest := Decode(s[4..], size - 3).value;
      assert Decode(s, size).value == [Decoded1(s), Decoded2(s), Decoded3(s)] + rest;
      EncodeBlock(s, rest);
      if size > 3 {
        EncodeDecode(s[4..], size - 3);
        TailText(s, Chars(size - 3), Masked(s[4..][Chars(size - 3) - 1], size - 3));
        MaskRepeats(s[Chars(size) - 1], size);
      } else {
        LastOfFour(s);
      }
      hide *;
    }
  }

  lemma TailText(s: seq<bv8>, n: nat, c: bv8)
    requires 0 < n && n + 4 <= |s|
    ensures s[..4] + (s[4..][..n - 1] + [c]) == s[..n + 3] + [c] && s[4..][n - 1] == s[n + 3]
  {
  }

  lemma MaskRepeats(c: bv8, size: nat)
    requires size >= 3
    ensures Masked(c, size) == Masked(c, size - 3)
  {
    hide Itoa64, Atoi64;
    assert size % 3 == (size - 3) % 3;
  }

  lemma LastOfFour(s: seq<bv8>)
    requires |s| >= 4 && Itoa64(Atoi64(s[3]) & 0x3F) == s[3]
    ensures s[..4] + Encode([]) == s[..3] + [Masked(s[3], 3)]
  {
    hide Itoa64, Atoi64;
  }

  lemma CharsStep(size: nat)
    requires size >= 3
    ensures Chars(size) == 4 + Chars(size - 3) && Chars(0) == 0
    ensures size > 3 ==> Chars(size - 3) > 0
  {
    assert size / 3 == (size - 3) / 3 + 1 && size % 3 == (size - 3) % 3;
  }

  lemma EncodeBlock(s: seq<bv8>, rest: seq<bv8>)
    requires |s| >= 4 && Encode3(Decoded1(s), Decoded2(s), Decoded3(s)) == [s[0], s[1], s[2], s[3]]
    ensures Encode([Decoded1(s), Decoded2(s), Decoded3(s)] + rest) == s[..4] + Encode(rest)
  {
    hide Decoded1, Decoded2, Decoded3, Encode1, Encode2, Encode3;
    var bytes := [Decoded1(s), Decoded2(s), Decoded3(s)] + rest;
    assert bytes[3..] == rest;
    assert s[..4] == [s[0], s[1], s[2], s[3]];
  }

  lemma Recoded1(s: seq<bv8>)
    requires |s| >= 2 && InAlphabet(s[0]) && InAlphabet(s[1])
    ensures Encode([Decoded1(s)]) == s[..1] + [Masked(s[1], 1)]
  {
    Recoded([s[0], s[1], s[1], s[1]]);
    hide Itoa64, Atoi64, Byte1, InAlphabet, Encode1;
  }

  lemma Recoded2(s: seq<bv8>)
    requires |s| >= 3 && InAlphabet(s[0]) && InAlphabet(s[1]) && InAlphabet(s[2])
    ensures Encode([Decoded1(s), Decoded2(s)]) == s[..2] + [Masked(s[2], 2)]
  {
    Recoded([s[0], s[1], s[2], s[2]]);
    hide Itoa64, Atoi64, Byte1, Byte2, InAlphabet, Encode2;
  }

  // ---------------------------------------------------------------- the loops

  /** The byte a C string holds at index i: its characters, then the terminating NUL. Nothing lies beyond. */
  function CharAt(s: seq<bv8>, i: nat): bv8
    requires i <= |s|
  {
    if i < |s| then s[i] else 0
  }

  lemma EncodeStep(left: seq<bv8>, done: seq<bv8>)
    ensures |left| == 1 ==> Encode(left) == Encode1(left[0])
    ensures |left| == 2 ==> Encode(left) == Encode2(left[0], left[1])
    ensures |left| >= 3 ==> done + Encode(left) == done + Encode3(left[0], left[1], left[2]) + Encode(left[3..])
  {
    hide Encode1, Encode2, Encode3;
    if |left| >= 3 {
      Associative(done, Encode3(left[0], left[1], left[2]), Encode(left[3..]));
    }
  }

  lemma Associative(a: seq<bv8>, b: seq<bv8>, c: seq<bv8>)
    ensures a + (b + c) == (a + b) + c
  {
  }

  /** BF_encode: the characters written one by one from dst on. */
  method BfEncode(src: seq<bv8>) returns (dst: seq<bv8>)
    requires |src| > 0
    ensures dst == Encode(src)
  {
    hide Itoa64, Six1, Six2, Six3, Six4, Encode, Chars;
    dst := [];
    var sptr := 0;
    assert src[0..] == src && [] + Encode(src) == Encode(src);
    while true
      invariant sptr < |src| && dst + Encode(src[sptr..]) == Encode(src)
      decreases |src| - sptr
    {
      ghost var left, done := src[sptr..], dst;
      EncodeStep(left, done);
      var c1 := src[sptr];
      sptr := sptr + 1;
      dst := dst + [Itoa64(Six1(c1))];
      if sptr >= |src| {
        dst := dst + [Itoa64(Six2(c1, 0))];
        assert dst == done + Encode1(c1);
        break;
      }
      var c2 := src[sptr];
      sptr := sptr + 1;
      dst := dst + [Itoa64(Six2(c1, c2))];
      if sptr >= |src| {
        dst := dst + [Itoa64(Six3(c2, 0))];
        assert dst == done + Encode2(c1, c2);
        break;
      }
      var c3 := src[sptr];
      sptr := sptr + 1;
      dst := dst + [Itoa64(Six3(c2, c3))];
      dst := dst + [Itoa64(Six4(c3))];
      assert dst == done + Encode3(c1, c2, c3);
      assert left[3..] == src[sptr..];
      if sptr >= |src| {
        EncodeNothing(src[sptr..]);
        break;
      }
    }
  }

  lemma EncodeNothing(s: seq<bv8>)
    ensures s == [] ==> Encode(s) == []
  {
  }

  /** BF_safe_atoi64: the value of a character, unless it is not in the alphabet. */
  function SafeAtoi64(c: bv8): Option<bv8> {
    if InAlphabet(c) then Some(Atoi64(c)) else None
  }

  /** What one turn of the loop of BF_decode amounts to, by where it stops. */
  lemma DecodeStep(left: seq<bv8>, todo: nat, done: seq<bv8>)
    requires todo > 0
    ensures Joined([], Decode(left, todo)) == Decode(left, todo)
    ensures !GoodAt(left, 0) || !GoodAt(left, 1) ==> Decode(left, todo) == None
    ensures todo >= 2 && !GoodAt(left, 2) ==> Decode(left, todo) == None
    ensures todo >= 3 && !GoodAt(left, 3) ==> Decode(left, todo) == None
    ensures todo == 1 && GoodAt(left, 0) && GoodAt(left, 1) ==>
            Joined(done, Decode(left, todo)) == Some(done + [Decoded1(left)])
    ensures todo == 2 && GoodAt(left, 0) && GoodAt(left, 1) && GoodAt(left, 2) ==>
            Joined(done, Decode(left, todo)) == Some(done + [Decoded1(left)] + [Decoded2(left)])
  {
    hide Decoded1, Decoded2, Decoded3;
    if Decode(left, todo).Some? {
      assert [] + Decode(left, todo).value == Decode(left, todo).value;
      if todo == 2 {
        assert done + [Decoded1(left), Decoded2(left)] == done + [Decoded1(left)] + [Decoded2(left)];
      }
    }
  }

  /** A turn that does not stop. */
  lemma DecodeBlock(left: seq<bv8>, todo: nat, done: seq<bv8>)
    requires todo >= 3 && GoodAt(left, 0) && GoodAt(left, 1) && GoodAt(left, 2) && GoodAt(left, 3)
    ensures var bytes := done + [Decoded1(left)] + [Decoded2(left)] + [Decoded3(left)];
            && Joined(done, Decode(left, todo)) == Joined(bytes, Decode(left[4..], todo - 3))
            && (todo == 3 ==> Joined(done, Decode(left, todo)) == Some(bytes))
  {
    hide Decoded1, Decoded2, Decoded3;
    var block := [Decoded1(left), Decoded2(left), Decoded3(left)];
    var rest := Decode(left[4..], todo - 3);
    assert done + [Decoded1(left)] + [Decoded2(left)] + [Decoded3(left)] == done + block;
    if todo == 3 {
      assert rest == Some([]) && block + [] == block;
    }
    if rest.Some? {
      Associative(done, block, rest.value);
    }
  }

  /** BF_decode: size bytes, or failure; characters are read one by one and never beyond the NUL. */
  method BfDecode(src: seq<bv8>, size: nat) returns (dst: Option<seq<bv8>>)
    requires size > 0 && 0 !in src
    ensures dst == Decode(src, size)
  {
    hide Atoi64, Byte1, Byte2, Byte3, InAlphabet, Decode;
    NulIsOutside();
    var bytes: seq<bv8> := [];
    var sptr := 0;
    assert src[0..] == src;
    DecodeStep(src, size, []);
    while true
      invariant sptr <= |src| && |bytes| < size
      invariant Decode(src, size) == Joined(bytes, Decode(src[sptr..], size - |bytes|))
      decreases size - |bytes|
    {
      ghost var left, done, todo := src[sptr..], bytes, size - |bytes|;
      DecodeStep(left, todo, done);
      var c1 := SafeAtoi64(CharAt(src, sptr));
      if c1.None? { return None; }
      sptr := sptr + 1;
      var c2 := SafeAtoi64(CharAt(src, sptr));
      if c2.None? { return None; }
      sptr := sptr + 1;
      bytes := bytes + [Byte1(c1.value, c2.value)];
      if |bytes| >= size { return Some(bytes); }
      var c3 := SafeAtoi64(CharAt(src, sptr));
      if c3.None? { return None; }
      sptr := sptr + 1;
      bytes := bytes + [Byte2(c2.value, c3.value)];
      if |bytes| >= size { return Some(bytes); }
      var c4 := SafeAtoi64(CharAt(src, sptr));
      if c4.None? { return None; }
      sptr := sptr + 1;
      bytes := bytes + [Byte3(c3.value, c4.value)];
      DecodeBlock(left, todo, done);
      assert left[4..] == src[sptr..];
      if |bytes| >= size { return Some(bytes); }
    }
  }

  function Joined(a: seq<bv8>, b: Option<seq<bv8>>): Option<seq<bv8>> {
    match b
    case None => None
    case Some(bytes) => Some(a + bytes)
  }

  lemma NulIsOutside()
    ensures !InAlphabet(0)
  {
  }
}
