/** What the definitions of the standard come to: the round functions bit by bit, the padding and the length as numbers,
    the initial registers as bytes, and the digest of "abc" (appendix A.5 of RFC 1321). */
module Md5Vectors {
  import opened Md5Spec
  import opened Md5Streaming
  import opened Md5Transform

  // ---- Sections 3.1 to 3.4 ----

  predicate Bit(w: Word, k: Word)
    requires k < 32
  {
    w & (1 << k) != 0
  }

  lemma Round1Bits(x: Word, y: Word, z: Word, k: Word)
    requires k < 32
    ensures Bit((x & y) | (!x & z), k) <==> if Bit(x, k) then Bit(y, k) else Bit(z, k)
  {
  }

  lemma Round2Bits(x: Word, y: Word, z: Word, k: Word)
    requires k < 32
    ensures Bit((x & z) | (y & !z), k) <==> if Bit(z, k) then Bit(x, k) else Bit(y, k)
  {
  }

  lemma Round3Bits(x: Word, y: Word, z: Word, k: Word)
    requires k < 32
    ensures Bit(x ^ y ^ z, k) <==> (Bit(x, k) != Bit(y, k)) != Bit(z, k)
  {
  }

  lemma Round4Bits(x: Word, y: Word, z: Word, k: Word)
    requires k < 32
    ensures Bit(y ^ (x | !z), k) <==> Bit(y, k) != (Bit(x, k) || !Bit(z, k))
  {
  }

  /** Section 3.4, bit by bit: if x then y else z; if z then x else y; parity; y differs from (x or not z). */
  lemma TruthTables(i: nat, x: Word, y: Word, z: Word, k: Word)
    requires i < 64 && k < 32
    ensures Bit(Mix(i, x, y, z), k) <==>
      if i < 16 then (if Bit(x, k) then Bit(y, k) else Bit(z, k))
      else if i < 32 then (if Bit(z, k) then Bit(x, k) else Bit(y, k))
      else if i < 48 then (Bit(x, k) != Bit(y, k)) != Bit(z, k)
      else Bit(y, k) != (Bit(x, k) || !Bit(z, k))
  {
    if i < 16 {
      Round1Bits(x, y, z, k);
    } else if i < 32 {
      Round2Bits(x, y, z, k);
    } else if i < 48 {
      Round3Bits(x, y, z, k);
    } else {
      Round4Bits(x, y, z, k);
    }
  }

  /** Section 3.1: one bit and then the fewest zero bits that leave 64 bits of the last block. */
  lemma PaddingIsLeast(message: seq<Byte>, n: nat)
    ensures Padded(message) == message + [0x80 as Byte] + seq(|Padded(message)| - |message| - 1, i => 0 as Byte)
    ensures n % 64 == 56 && n > |message| ==> |Padded(message)| <= n
  {
  }

  /** Section 3.2: the length in bits modulo 2^64, the low-order word first. */
  lemma LengthIs(length: nat, low: nat, high: nat)
    requires low < 0x1_0000_0000 && high < 0x1_0000_0000
    requires 8 * length % 0x1_0000_0000_0000_0000 == low + 0x1_0000_0000 * high
    ensures LengthWords(length) == [ToWord(low), ToWord(high)]
  {
    hide ToWord;
    var bits := low + 0x1_0000_0000 * high;
    assert bits % 0x1_0000_0000 == low && bits / 0x1_0000_0000 == high;
  }

  lemma SmallWords()
    ensures ToWord(0) == 0 && ToWord(1) == 1 && ToWord(8) == 8 && ToWord(24) == 24 && ToWord(0xFFFF_FFF8) == 0xFFFF_FFF8
  {
  }

  lemma Lengths()
    ensures LengthWords(3) == [24, 0] && LengthWords(0x1FFF_FFFF) == [0xFFFF_FFF8, 0]
    ensures LengthWords(0x2000_0000) == [0, 1] && LengthWords(0x2000_0000_0000_0001) == [8, 0]
  {
    hide LengthWords, ToWord;
    SmallWords();
    LengthIs(3, 24, 0);
    LengthIs(0x1FFF_FFFF, 0xFFFF_FFF8, 0);
    LengthIs(0x2000_0000, 0, 1);
    LengthIs(0x2000_0000_0000_0001, 8, 0);
  }

  /** Section 3.3, in bytes. */
  lemma InitialBytes()
    ensures Output(InitialRegisters()) ==
      [0x01, 0x23, 0x45, 0x67, 0x89, 0xab, 0xcd, 0xef, 0xfe, 0xdc, 0xba, 0x98, 0x76, 0x54, 0x32, 0x10]
  {
  }

  // ---- The digest of "abc" ----

  predicate IsBlock(x: seq<Word>) {
    |x| == 16
    && x[0] == 0x80636261 && x[1] == 0x0 && x[2] == 0x0 && x[3] == 0x0
    && x[4] == 0x0 && x[5] == 0x0 && x[6] == 0x0 && x[7] == 0x0
    && x[8] == 0x0 && x[9] == 0x0 && x[10] == 0x0 && x[11] == 0x0
    && x[12] == 0x0 && x[13] == 0x0 && x[14] == 0x18 && x[15] == 0x0
  }

  /** One step, of all its parts. */
  function Line(q: Registers, f: Word, w: Word, t: Word, s: Word): Registers
    requires 0 < s < 32
  {
    Registers(q.d, Plus(q.b, Rotate(Plus(q.a, Plus(f, Plus(w, t))), s)), q.b, q.c)
  }

  lemma Advance(i: nat, x: seq<Word>)
    requires i < 64 && |x| == 16
    ensures var q := Steps(0, i, InitialRegisters(), x);
            Steps(0, i + 1, InitialRegisters(), x) ==
              Line(q, Mix(i, q.b, q.c, q.d), x[WordIndex(i)], Sine(i), Shift(i))
  {
    hide Plus, Rotate, Mix, Sine, Shift, WordIndex, InitialRegisters;
  }

  lemma Start(x: seq<Word>)
    requires |x| == 16
    ensures Steps(0, 0, InitialRegisters(), x) ==
      Registers(0x67452301, 0xefcdab89, 0x98badcfe, 0x10325476)
  {
  }

  lemma Lines1()
    ensures Mix(0, 0xefcdab89, 0x98badcfe, 0x10325476) == 0x98badcfe
    ensures Line(Registers(0x67452301, 0xefcdab89, 0x98badcfe, 0x10325476), 0x98badcfe, 0x80636261, 0xd76aa478, 7) ==
      Registers(0x10325476, 0xd6d117b4, 0xefcdab89, 0x98badcfe)
    ensures Mix(1, 0xd6d117b4, 0xefcdab89, 0x98badcfe) == 0xceebcbca
    ensures Line(Registers(0x10325476, 0xd6d117b4, 0xefcdab89, 0x98badcfe), 0xceebcbca, 0x0, 0xe8c7b756, 12) ==
      Registers(0x98badcfe, 0x344a8432, 0xd6d117b4, 0xefcdab89)
    ensures Mix(2, 0x344a8432, 0xd6d117b4, 0xefcdab89) == 0xdfc52fb9
    ensures Line(Registers(0x98badcfe, 0x344a8432, 0xd6d117b4, 0xefcdab89), 0xdfc52fb9, 0x0, 0x242070db, 17) ==
      Registers(0xefcdab89, 0x2f6fbd72, 0x344a8432, 0xd6d117b4)
    ensures Mix(3, 0x2f6fbd72, 0x344a8432, 0xd6d117b4) == 0xf4da86b6
    ensures Line(Registers(0xefcdab89, 0x2f6fbd72, 0x344a8432, 0xd6d117b4), 0xf4da86b6, 0x0, 0xc1bdceee, 22) ==
      Registers(0xd6d117b4, 0x7ad956f2, 0x2f6fbd72, 0x344a8432)
    ensures Mix(4, 0x7ad956f2, 0x2f6fbd72, 0x344a8432) == 0x2e4b9472
    ensures Line(Registers(0xd6d117b4, 0x7ad956f2, 0x2f6fbd72, 0x344a8432), 0x2e4b9472, 0x0, 0xf57c0faf, 7) ==
      Registers(0x344a8432, 0xc73741ef, 0x7ad956f2, 0x2f6fbd72)
    ensures Mix(5, 0xc73741ef, 0x7ad956f2, 0x2f6fbd72) == 0x6a59fcf2
    ensures Line(Registers(0x344a8432, 0xc73741ef, 0x7ad956f2, 0x2f6fbd72), 0x6a59fcf2, 0x0, 0x4787c62a, 12) ==
      Registers(0x2f6fbd72, 0x8bac3051, 0xc73741ef, 0x7ad956f2)
    ensures Mix(6, 0x8bac3051, 0xc73741ef, 0x7ad956f2) == 0xf37546e3
    ensures Line(Registers(0x2f6fbd72, 0x8bac3051, 0xc73741ef, 0x7ad956f2), 0xf37546e3, 0x0, 0xa8304613, 17) ==
      Registers(0x7ad956f2, 0x207dc67b, 0x8bac3051, 0xc73741ef)
    ensures Mix(7, 0x207dc67b, 0x8bac3051, 0xc73741ef) == 0xc72e01d5
    ensures Line(Registers(0x7ad956f2, 0x207dc67b, 0x8bac3051, 0xc73741ef), 0xc72e01d5, 0x0, 0xfd469501, 22) ==
      Registers(0xc73741ef, 0x928d99f6, 0x207dc67b, 0x8bac3051)
  {
  }

  lemma UpTo8(x: seq<Word>)
    requires IsBlock(x)
    ensures Steps(0, 8, InitialRegisters(), x) ==
      Registers(0xc73741ef, 0x928d99f6, 0x207dc67b, 0x8bac3051)
  {
    hide Line, Mix, Steps, Sine, Shift, WordIndex, InitialRegisters;
    Schedule1();
    Lines1();
    Start(x);
    Advance(0, x);
    Advance(1, x);
    Advance(2, x);
    Advance(3, x);
    Advance(4, x);
    Advance(5, x);
    Advance(6, x);
    Advance(7, x);
  }

  lemma Lines9()
    ensures Mix(8, 0x928d99f6, 0x207dc67b, 0x8bac3051) == 0x092da073
    ensures Line(Registers(0xc73741ef, 0x928d99f6, 0x207dc67b, 0x8bac3051), 0x092da073, 0x0, 0x698098d8, 7) ==
      Registers(0x8bac3051, 0x854b3712, 0x928d99f6, 0x207dc67b)
    ensures Mix(9, 0x854b3712, 0x928d99f6, 0x207dc67b) == 0xa03dd17b
    ensures Line(Registers(0x8bac3051, 0x854b3712, 0x928d99f6, 0x207dc67b), 0xa03dd17b, 0x0, 0x8b44f7af, 12) ==
      Registers(0x207dc67b, 0x74e2f284, 0x854b3712, 0x928d99f6)
    ensures Mix(10, 0x74e2f284, 0x854b3712, 0x928d99f6) == 0x864f3b72
    ensures Line(Registers(0x207dc67b, 0x74e2f284, 0x854b3712, 0x928d99f6), 0x864f3b72, 0x0, 0xffff5bb1, 17) ==
      Registers(0x928d99f6, 0x3020401c, 0x74e2f284, 0x854b3712)
    ensures Mix(11, 0x3020401c, 0x74e2f284, 0x854b3712) == 0xb56b7706
    ensures Line(Registers(0x928d99f6, 0x3020401c, 0x74e2f284, 0x854b3712), 0xb56b7706, 0x0, 0x895cd7be, 22) ==
      Registers(0x854b3712, 0x5ed49596, 0x3020401c, 0x74e2f284)
    ensures Mix(12, 0x5ed49596, 0x3020401c, 0x74e2f284) == 0x30226214
    ensures Line(Registers(0x854b3712, 0x5ed49596, 0x3020401c, 0x74e2f284), 0x30226214, 0x0, 0x6b901122, 7) ==
      Registers(0x74e2f284, 0xdda9b9a6, 0x5ed49596, 0x3020401c)
    ensures Mix(13, 0xdda9b9a6, 0x5ed49596, 0x3020401c) == 0x7c80d19e
    ensures Line(Registers(0x74e2f284, 0xdda9b9a6, 0x5ed49596, 0x3020401c), 0x7c80d19e, 0x0, 0xfd987193, 12) ==
      Registers(0x3020401c, 0xa1051895, 0xdda9b9a6, 0x5ed49596)
    ensures Mix(14, 0xa1051895, 0xdda9b9a6, 0x5ed49596) == 0xdfd19d86
    ensures Line(Registers(0x3020401c, 0xa1051895, 0xdda9b9a6, 0x5ed49596), 0xdfd19d86, 0x18, 0xa679438e, 17) ==
      Registers(0x5ed49596, 0xe396856b, 0xa1051895, 0xdda9b9a6)
    ensures Mix(15, 0xe396856b, 0xa1051895, 0xdda9b9a6) == 0xbd2d3885
    ensures Line(Registers(0x5ed49596, 0xe396856b, 0xa1051895, 0xdda9b9a6), 0xbd2d3885, 0x0, 0x49b40821, 22) ==
      Registers(0xdda9b9a6, 0x72aff2e0, 0xe396856b, 0xa1051895)
  {
  }

  lemma UpTo16(x: seq<Word>)
    requires IsBlock(x) && Steps(0, 8, InitialRegisters(), x) ==
      Registers(0xc73741ef, 0x928d99f6, 0x207dc67b, 0x8bac3051)
    ensures Steps(0, 16, InitialRegisters(), x) ==
      Registers(0xdda9b9a6, 0x72aff2e0, 0xe396856b, 0xa1051895)
  {
    hide Line, Mix, Steps, Sine, Shift, WordIndex, InitialRegisters;
    Schedule1();
    Lines9();
    Advance(8, x);
    Advance(9, x);
    Advance(10, x);
    Advance(11, x);
    Advance(12, x);
    Advance(13, x);
    Advance(14, x);
    Advance(15, x);
  }

  lemma Lines17()
    ensures Mix(16, 0x72aff2e0, 0xe396856b, 0xa1051895) == 0x629795ea
    ensures Line(Registers(0xdda9b9a6, 0x72aff2e0, 0xe396856b, 0xa1051895), 0x629795ea, 0x0, 0xf61e2562, 5) ==
      Registers(0xa1051895, 0x3e9e9126, 0x72aff2e0, 0xe396856b)
    ensures Mix(17, 0x3e9e9126, 0x72aff2e0, 0xe396856b) == 0x32bff3a2
    ensures Line(Registers(0xa1051895, 0x3e9e9126, 0x72aff2e0, 0xe396856b), 0x32bff3a2, 0x0, 0xc040b340, 9) ==
      Registers(0xe396856b, 0x4a1d804e, 0x3e9e9126, 0x72aff2e0)
    ensures Mix(18, 0x4a1d804e, 0x3e9e9126, 0x72aff2e0) == 0x4e1d8146
    ensures Line(Registers(0xe396856b, 0x4a1d804e, 0x3e9e9126, 0x72aff2e0), 0x4e1d8146, 0x0, 0x265e5a51, 14) ==
      Registers(0x72aff2e0, 0xe25e1652, 0x4a1d804e, 0x3e9e9126)
    ensures Mix(19, 0xe25e1652, 0x4a1d804e, 0x3e9e9126) == 0x621f104a
    ensures Line(Registers(0x72aff2e0, 0xe25e1652, 0x4a1d804e, 0x3e9e9126), 0x621f104a, 0x80636261, 0xe9b6c7aa, 20) ==
      Registers(0x3e9e9126, 0xb5b204e4, 0xe25e1652, 0x4a1d804e)
    ensures Mix(20, 0xb5b204e4, 0xe25e1652, 0x4a1d804e) == 0xa0521654
    ensures Line(Registers(0x3e9e9126, 0xb5b204e4, 0xe25e1652, 0x4a1d804e), 0xa0521654, 0x0, 0xd62f105d, 5) ==
      Registers(0x4a1d804e, 0x59a8ffda, 0xb5b204e4, 0xe25e1652)
    ensures Mix(21, 0x59a8ffda, 0xb5b204e4, 0xe25e1652) == 0x55a816f6
    ensures Line(Registers(0x4a1d804e, 0x59a8ffda, 0xb5b204e4, 0xe25e1652), 0x55a816f6, 0x0, 0x02441453, 9) ==
      Registers(0xe25e1652, 0x6d002f1e, 0x59a8ffda, 0xb5b204e4)
    ensures Mix(22, 0x6d002f1e, 0x59a8ffda, 0xb5b204e4) == 0x6d08ff1e
    ensures Line(Registers(0xe25e1652, 0x6d002f1e, 0x59a8ffda, 0xb5b204e4), 0x6d08ff1e, 0x0, 0xd8a1e681, 14) ==
      Registers(0xb5b204e4, 0xabfc7920, 0x6d002f1e, 0x59a8ffda)
    ensures Mix(23, 0xabfc7920, 0x6d002f1e, 0x59a8ffda) == 0x2da87904
    ensures Line(Registers(0xb5b204e4, 0xabfc7920, 0x6d002f1e, 0x59a8ffda), 0x2da87904, 0x0, 0xe7d3fbc8, 20) ==
      Registers(0x59a8ffda, 0x47092c07, 0xabfc7920, 0x6d002f1e)
  {
  }

  lemma UpTo24(x: seq<Word>)
    requires IsBlock(x) && Steps(0, 16, InitialRegisters(), x) ==
      Registers(0xdda9b9a6, 0x72aff2e0, 0xe396856b, 0xa1051895)
    ensures Steps(0, 24, InitialRegisters(), x) ==
      Registers(0x59a8ffda, 0x47092c07, 0xabfc7920, 0x6d002f1e)
  {
    hide Line, Mix, Steps, Sine, Shift, WordIndex, InitialRegisters;
    Schedule2();
    Lines17();
    Advance(16, x);
    Advance(17, x);
    Advance(18, x);
    Advance(19, x);
    Advance(20, x);
    Advance(21, x);
    Advance(22, x);
    Advance(23, x);
  }

  lemma Lines25()
    ensures Mix(24, 0x47092c07, 0xabfc7920, 0x6d002f1e) == 0xc7fc7c26
    ensures Line(Registers(0x59a8ffda, 0x47092c07, 0xabfc7920, 0x6d002f1e), 0xc7fc7c26, 0x0, 0x21e1cde6, 5) ==
      Registers(0x6d002f1e, 0xb7f268cf, 0x47092c07, 0xabfc7920)
    ensures Mix(25, 0xb7f268cf, 0x47092c07, 0xabfc7920) == 0xe7f16c07
    ensures Line(Registers(0x6d002f1e, 0xb7f268cf, 0x47092c07, 0xabfc7920), 0xe7f16c07, 0x18, 0xc33707d6, 9) ==
      Registers(0xabfc7920, 0x09388eff, 0xb7f268cf, 0x47092c07)
    ensures Mix(26, 0x09388eff, 0xb7f268cf, 0x47092c07) == 0xb1fa4ccf
    ensures Line(Registers(0xabfc7920, 0x09388eff, 0xb7f268cf, 0x47092c07), 0xb1fa4ccf, 0x0, 0xf4d50d87, 14) ==
      Registers(0x47092c07, 0xfe1623b1, 0x09388eff, 0xb7f268cf)
    ensures Mix(27, 0xfe1623b1, 0x09388eff, 0xb7f268cf) == 0xbe1aa6b1
    ensures Line(Registers(0x47092c07, 0xfe1623b1, 0x09388eff, 0xb7f268cf), 0xbe1aa6b1, 0x0, 0x455a14ed, 20) ==
      Registers(0xb7f268cf, 0x786acb8f, 0xfe1623b1, 0x09388eff)
    ensures Mix(28, 0x786acb8f, 0xfe1623b1, 0x09388eff) == 0xfe2eab8f
    ensures Line(Registers(0xb7f268cf, 0x786acb8f, 0xfe1623b1, 0x09388eff), 0xfe2eab8f, 0x0, 0xa9e3e905, 5) ==
      Registers(0x09388eff, 0x790a77fb, 0x786acb8f, 0xfe1623b1)
    ensures Mix(29, 0x790a77fb, 0x786acb8f, 0xfe1623b1) == 0x786aebbf
    ensures Line(Registers(0x09388eff, 0x790a77fb, 0x786acb8f, 0xfe1623b1), 0x786aebbf, 0x0, 0xfcefa3f8, 9) ==
      Registers(0xfe1623b1, 0x9f47e4f8, 0x790a77fb, 0x786acb8f)
    ensures Mix(30, 0x9f47e4f8, 0x790a77fb, 0x786acb8f) == 0x1942f4f8
    ensures Line(Registers(0xfe1623b1, 0x9f47e4f8, 0x790a77fb, 0x786acb8f), 0x1942f4f8, 0x0, 0x676f02d9, 14) ==
      Registers(0x786acb8f, 0xa62884aa, 0x9f47e4f8, 0x790a77fb)
    ensures Mix(31, 0xa62884aa, 0x9f47e4f8, 0x790a77fb) == 0xa64d84aa
    ensures Line(Registers(0x786acb8f, 0xa62884aa, 0x9f47e4f8, 0x790a77fb), 0xa64d84aa, 0x0, 0x8d2a4c8a, 20) ==
      Registers(0x790a77fb, 0x726342d3, 0xa62884aa, 0x9f47e4f8)
  {
  }

  lemma UpTo32(x: seq<Word>)
    requires IsBlock(x) && Steps(0, 24, InitialRegisters(), x) ==
      Registers(0x59a8ffda, 0x47092c07, 0xabfc7920, 0x6d002f1e)
    ensures Steps(0, 32, InitialRegisters(), x) ==
      Registers(0x790a77fb, 0x726342d3, 0xa62884aa, 0x9f47e4f8)
  {
    hide Line, Mix, Steps, Sine, Shift, WordIndex, InitialRegisters;
    Schedule2();
    Lines25();
    Advance(24, x);
    Advance(25, x);
    Advance(26, x);
    Advance(27, x);
    Advance(28, x);
    Advance(29, x);
    Advance(30, x);
    Advance(31, x);
  }

  lemma Lines33()
    ensures Mix(32, 0x726342d3, 0xa62884aa, 0x9f47e4f8) == 0x4b0c2281
    ensures Line(Registers(0x790a77fb, 0x726342d3, 0xa62884aa, 0x9f47e4f8), 0x4b0c2281, 0x0, 0xfffa3942, 4) ==
      Registers(0x9f47e4f8, 0xb3707ebf, 0x726342d3, 0xa62884aa)
    ensures Mix(33, 0xb3707ebf, 0x726342d3, 0xa62884aa) == 0x673bb8c6
    ensures Line(Registers(0x9f47e4f8, 0xb3707ebf, 0x726342d3, 0xa62884aa), 0x673bb8c6, 0x0, 0x8771f681, 11) ==
      Registers(0xa62884aa, 0x60127b2e, 0xb3707ebf, 0x726342d3)
    ensures Mix(34, 0x60127b2e, 0xb3707ebf, 0x726342d3) == 0xa1014742
    ensures Line(Registers(0xa62884aa, 0x60127b2e, 0xb3707ebf, 0x726342d3), 0xa1014742, 0x0, 0x6d9d6122, 16) ==
      Registers(0x726342d3, 0x8d212ff5, 0x60127b2e, 0xb3707ebf)
    ensures Mix(35, 0x8d212ff5, 0x60127b2e, 0xb3707ebf) == 0x5e432a64
    ensures Line(Registers(0x726342d3, 0x8d212ff5, 0x60127b2e, 0xb3707ebf), 0x5e432a64, 0x18, 0xfde5380c, 23) ==
      Registers(0xb3707ebf, 0x3b0875c7, 0x8d212ff5, 0x60127b2e)
    ensures Mix(36, 0x3b0875c7, 0x8d212ff5, 0x60127b2e) == 0xd63b211c
    ensures Line(Registers(0xb3707ebf, 0x3b0875c7, 0x8d212ff5, 0x60127b2e), 0xd63b211c, 0x0, 0xa4beea44, 4) ==
      Registers(0x60127b2e, 0x21b117b9, 0x3b0875c7, 0x8d212ff5)
    ensures Mix(37, 0x21b117b9, 0x3b0875c7, 0x8d212ff5) == 0x97984d8b
    ensures Line(Registers(0x60127b2e, 0x21b117b9, 0x3b0875c7, 0x8d212ff5), 0x97984d8b, 0x0, 0x4bdecfa9, 11) ==
      Registers(0x8d212ff5, 0x6e7429d5, 0x21b117b9, 0x3b0875c7)
    ensures Mix(38, 0x6e7429d5, 0x21b117b9, 0x3b0875c7) == 0x74cd4bab
    ensures Line(Registers(0x8d212ff5, 0x6e7429d5, 0x21b117b9, 0x3b0875c7), 0x74cd4bab, 0x0, 0xf6bb4b60, 16) ==
      Registers(0x3b0875c7, 0x3575227e, 0x6e7429d5, 0x21b117b9)
    ensures Mix(39, 0x3575227e, 0x6e7429d5, 0x21b117b9) == 0x7ab01c12
    ensures Line(Registers(0x3b0875c7, 0x3575227e, 0x6e7429d5, 0x21b117b9), 0x7ab01c12, 0x0, 0xbebfbc70, 23) ==
      Registers(0x21b117b9, 0x5a2f5ea5, 0x3575227e, 0x6e7429d5)
  {
  }

  lemma UpTo40(x: seq<Word>)
    requires IsBlock(x) && Steps(0, 32, InitialRegisters(), x) ==
      Registers(0x790a77fb, 0x726342d3, 0xa62884aa, 0x9f47e4f8)
    ensures Steps(0, 40, InitialRegisters(), x) ==
      Registers(0x21b117b9, 0x5a2f5ea5, 0x3575227e, 0x6e7429d5)
  {
    hide Line, Mix, Steps, Sine, Shift, WordIndex, InitialRegisters;
    Schedule3();
    Lines33();
    Advance(32, x);
    Advance(33, x);
    Advance(34, x);
    Advance(35, x);
    Advance(36, x);
    Advance(37, x);
    Advance(38, x);
    Advance(39, x);
  }

  lemma Lines41()
    ensures Mix(40, 0x5a2f5ea5, 0x3575227e, 0x6e7429d5) == 0x012e550e
    ensures Line(Registers(0x21b117b9, 0x5a2f5ea5, 0x3575227e, 0x6e7429d5), 0x012e550e, 0x0, 0x289b7ec6, 4) ==
      Registers(0x6e7429d5, 0x11de1779, 0x5a2f5ea5, 0x3575227e)
    ensures Mix(41, 0x11de1779, 0x5a2f5ea5, 0x3575227e) == 0x7e846ba2
    ensures Line(Registers(0x6e7429d5, 0x11de1779, 0x5a2f5ea5, 0x3575227e), 0x7e846ba2, 0x80636261, 0xeaa127fa, 11) ==
      Registers(0x3575227e, 0xfadcaa38, 0x11de1779, 0x5a2f5ea5)
    ensures Mix(42, 0xfadcaa38, 0x11de1779, 0x5a2f5ea5) == 0xb12de3e4
    ensures Line(Registers(0x3575227e, 0xfadcaa38, 0x11de1779, 0x5a2f5ea5), 0xb12de3e4, 0x0, 0xd4ef3085, 16) ==
      Registers(0x5a2f5ea5, 0x31c465ca, 0xfadcaa38, 0x11de1779)
    ensures Mix(43, 0x31c465ca, 0xfadcaa38, 0x11de1779) == 0xdac6d88b
    ensures Line(Registers(0x5a2f5ea5, 0x31c465ca, 0xfadcaa38, 0x11de1779), 0xdac6d88b, 0x0, 0x04881d05, 23) ==
      Registers(0x11de1779, 0x4c6124f4, 0x31c465ca, 0xfadcaa38)
    ensures Mix(44, 0x4c6124f4, 0x31c465ca, 0xfadcaa38) == 0x8779eb06
    ensures Line(Registers(0x11de1779, 0x4c6124f4, 0x31c465ca, 0xfadcaa38), 0x8779eb06, 0x0, 0xd9d4d039, 4) ==
      Registers(0xfadcaa38, 0x7f2e507b, 0x4c6124f4, 0x31c465ca)
    ensures Mix(45, 0x7f2e507b, 0x4c6124f4, 0x31c465ca) == 0x028b1145
    ensures Line(Registers(0xfadcaa38, 0x7f2e507b, 0x4c6124f4, 0x31c465ca), 0x028b1145, 0x0, 0xe6db99e5, 11) ==
      Registers(0x31c465ca, 0x99d9679d, 0x7f2e507b, 0x4c6124f4)
    ensures Mix(46, 0x99d9679d, 0x7f2e507b, 0x4c6124f4) == 0xaa961312
    ensures Line(Registers(0x31c465ca, 0x99d9679d, 0x7f2e507b, 0x4c6124f4), 0xaa961312, 0x0, 0x1fa27cf8, 16) ==
      Registers(0x4c6124f4, 0x8fae6399, 0x99d9679d, 0x7f2e507b)
    ensures Mix(47, 0x8fae6399, 0x99d9679d, 0x7f2e507b) == 0x6959547f
    ensures Line(Registers(0x4c6124f4, 0x8fae6399, 0x99d9679d, 0x7f2e507b), 0x6959547f, 0x0, 0xc4ac5665, 23) ==
      Registers(0x7f2e507b, 0x7beb9700, 0x8fae6399, 0x99d9679d)
  {
  }

  lemma UpTo48(x: seq<Word>)
    requires IsBlock(x) && Steps(0, 40, InitialRegisters(), x) ==
      Registers(0x21b117b9, 0x5a2f5ea5, 0x3575227e, 0x6e7429d5)
    ensures Steps(0, 48, InitialRegisters(), x) ==
      Registers(0x7f2e507b, 0x7beb9700, 0x8fae6399, 0x99d9679d)
  {
    hide Line, Mix, Steps, Sine, Shift, WordIndex, InitialRegisters;
    Schedule3();
    Lines41();
    Advance(40, x);
    Advance(41, x);
    Advance(42, x);
    Advance(43, x);
    Advance(44, x);
    Advance(45, x);
    Advance(46, x);
    Advance(47, x);
  }

  lemma Lines49()
    ensures Mix(48, 0x7beb9700, 0x8fae6399, 0x99d9679d) == 0xf041fcfb
    ensures Line(Registers(0x7f2e507b, 0x7beb9700, 0x8fae6399, 0x99d9679d), 0xf041fcfb, 0x80636261, 0xf4292244, 6) ==
      Registers(0x99d9679d, 0x7b201df8, 0x7beb9700, 0x8fae6399)
    ensures Mix(49, 0x7b201df8, 0x7beb9700, 0x8fae6399) == 0x009a0afe
    ensures Line(Registers(0x99d9679d, 0x7b201df8, 0x7beb9700, 0x8fae6399), 0x009a0afe, 0x0, 0x432aff97, 10) ==
      Registers(0x8fae6399, 0xf4e8e96e, 0x7b201df8, 0x7beb9700)
    ensures Mix(50, 0xf4e8e96e, 0x7b201df8, 0x7beb9700) == 0x8fdcf407
    ensures Line(Registers(0x8fae6399, 0xf4e8e96e, 0x7b201df8, 0x7beb9700), 0x8fdcf407, 0x18, 0xab9423a7, 15) ==
      Registers(0x7beb9700, 0xb298cefd, 0xf4e8e96e, 0x7b201df8)
    ensures Mix(51, 0xb298cefd, 0xf4e8e96e, 0x7b201df8) == 0x42370791
    ensures Line(Registers(0x7beb9700, 0xb298cefd, 0xf4e8e96e, 0x7b201df8), 0x42370791, 0x0, 0xfc93a039, 21) ==
      Registers(0x7b201df8, 0x8bf025c4, 0xb298cefd, 0xf4e8e96e)
    ensures Mix(52, 0x8bf025c4, 0xb298cefd, 0xf4e8e96e) == 0x396ff928
    ensures Line(Registers(0x7b201df8, 0x8bf025c4, 0xb298cefd, 0xf4e8e96e), 0x396ff928, 0x0, 0x655b59c3, 6) ==
      Registers(0xf4e8e96e, 0x06cc5e8a, 0x8bf025c4, 0xb298cefd)
    ensures Mix(53, 0x06cc5e8a, 0x8bf025c4, 0xb298cefd) == 0xc41f5a4e
    ensures Line(Registers(0xf4e8e96e, 0x06cc5e8a, 0x8bf025c4, 0xb298cefd), 0xc41f5a4e, 0x0, 0x8f0ccc92, 10) ==
      Registers(0xb298cefd, 0x5b0d97aa, 0x06cc5e8a, 0x8bf025c4)
    ensures Mix(54, 0x5b0d97aa, 0x06cc5e8a, 0x8bf025c4) == 0x79c38131
    ensures Line(Registers(0xb298cefd, 0x5b0d97aa, 0x06cc5e8a, 0x8bf025c4), 0x79c38131, 0x0, 0xffeff47d, 15) ==
      Registers(0x8bf025c4, 0x7d632dd0, 0x5b0d97aa, 0x06cc5e8a)
    ensures Mix(55, 0x7d632dd0, 0x5b0d97aa, 0x06cc5e8a) == 0xa67e3a5f
    ensures Line(Registers(0x8bf025c4, 0x7d632dd0, 0x5b0d97aa, 0x06cc5e8a), 0xa67e3a5f, 0x0, 0x85845dd1, 21) ==
      Registers(0x06cc5e8a, 0x3bfa2c27, 0x7d632dd0, 0x5b0d97aa)
  {
  }

  lemma UpTo56(x: seq<Word>)
    requires IsBlock(x) && Steps(0, 48, InitialRegisters(), x) ==
      Registers(0x7f2e507b, 0x7beb9700, 0x8fae6399, 0x99d9679d)
    ensures Steps(0, 56, InitialRegisters(), x) ==
      Registers(0x06cc5e8a, 0x3bfa2c27, 0x7d632dd0, 0x5b0d97aa)
  {
    hide Line, Mix, Steps, Sine, Shift, WordIndex, InitialRegisters;
    Schedule4();
    Lines49();
    Advance(48, x);
    Advance(49, x);
    Advance(50, x);
    Advance(51, x);
    Advance(52, x);
    Advance(53, x);
    Advance(54, x);
    Advance(55, x);
  }

  lemma Lines57()
    ensures Mix(56, 0x3bfa2c27, 0x7d632dd0, 0x5b0d97aa) == 0xc29941a7
    ensures Line(Registers(0x06cc5e8a, 0x3bfa2c27, 0x7d632dd0, 0x5b0d97aa), 0xc29941a7, 0x0, 0x6fa87e4f, 6) ==
      Registers(0x5b0d97aa, 0x7f81cc35, 0x3bfa2c27, 0x7d632dd0)
    ensures Mix(57, 0x7f81cc35, 0x3bfa2c27, 0x7d632dd0) == 0xc467f218
    ensures Line(Registers(0x5b0d97aa, 0x7f81cc35, 0x3bfa2c27, 0x7d632dd0), 0xc467f218, 0x0, 0xfe2ce6e0, 10) ==
      Registers(0x7d632dd0, 0x094454ab, 0x7f81cc35, 0x3bfa2c27)
    ensures Mix(58, 0x094454ab, 0x7f81cc35, 0x3bfa2c27) == 0xb2c41bce
    ensures Line(Registers(0x7d632dd0, 0x094454ab, 0x7f81cc35, 0x3bfa2c27), 0xb2c41bce, 0x0, 0xa3014314, 15) ==
      Registers(0x3bfa2c27, 0x4f9dbe3f, 0x094454ab, 0x7f81cc35)
    ensures Mix(59, 0x4f9dbe3f, 0x094454ab, 0x7f81cc35) == 0xc6bbeb54
    ensures Line(Registers(0x3bfa2c27, 0x4f9dbe3f, 0x094454ab, 0x7f81cc35), 0xc6bbeb54, 0x0, 0x4e0811a1, 21) ==
      Registers(0x7f81cc35, 0x7327d604, 0x4f9dbe3f, 0x094454ab)
    ensures Mix(60, 0x7327d604, 0x4f9dbe3f, 0x094454ab) == 0xb822416b
    ensures Line(Registers(0x7f81cc35, 0x7327d604, 0x4f9dbe3f, 0x094454ab), 0xb822416b, 0x0, 0xf7537e82, 6) ==
      Registers(0x094454ab, 0x310ade8f, 0x7327d604, 0x4f9dbe3f)
    ensures Mix(61, 0x310ade8f, 0x7327d604, 0x4f9dbe3f) == 0xc24d09cb
    ensures Line(Registers(0x094454ab, 0x310ade8f, 0x7327d604, 0x4f9dbe3f), 0xc24d09cb, 0x0, 0xbd3af235, 10) ==
      Registers(0x4f9dbe3f, 0x624d8cb2, 0x310ade8f, 0x7327d604)
    ensures Mix(62, 0x624d8cb2, 0x310ade8f, 0x7327d604) == 0xdfd77374
    ensures Line(Registers(0x4f9dbe3f, 0x624d8cb2, 0x310ade8f, 0x7327d604), 0xdfd77374, 0x0, 0x2ad7d2bb, 15) ==
      Registers(0x7327d604, 0xe484b9d8, 0x624d8cb2, 0x310ade8f)
    ensures Mix(63, 0xe484b9d8, 0x624d8cb2, 0x310ade8f) == 0x8cb8354a
    ensures Line(Registers(0x7327d604, 0xe484b9d8, 0x624d8cb2, 0x310ade8f), 0x8cb8354a, 0x0, 0xeb86d391, 21) ==
      Registers(0x310ade8f, 0xc08226b3, 0xe484b9d8, 0x624d8cb2)
  {
  }

  lemma UpTo64(x: seq<Word>)
    requires IsBlock(x) && Steps(0, 56, InitialRegisters(), x) ==
      Registers(0x06cc5e8a, 0x3bfa2c27, 0x7d632dd0, 0x5b0d97aa)
    ensures Steps(0, 64, InitialRegisters(), x) ==
      Registers(0x310ade8f, 0xc08226b3, 0xe484b9d8, 0x624d8cb2)
  {
    hide Line, Mix, Steps, Sine, Shift, WordIndex, InitialRegisters;
    Schedule4();
    Lines57();
    Advance(56, x);
    Advance(57, x);
    Advance(58, x);
    Advance(59, x);
    Advance(60, x);
    Advance(61, x);
    Advance(62, x);
    Advance(63, x);
  }

  lemma AllSteps(x: seq<Word>)
    requires IsBlock(x)
    ensures Steps(0, 64, InitialRegisters(), x) ==
      Registers(0x310ade8f, 0xc08226b3, 0xe484b9d8, 0x624d8cb2)
  {
    hide Steps, InitialRegisters, IsBlock;
    UpTo8(x);
    UpTo16(x);
    UpTo24(x);
    UpTo32(x);
    UpTo40(x);
    UpTo48(x);
    UpTo56(x);
    UpTo64(x);
  }

  lemma SumOfRegisters()
    ensures var q, r := InitialRegisters(), Registers(0x310ade8f, 0xc08226b3, 0xe484b9d8, 0x624d8cb2);
            Registers(Plus(q.a, r.a), Plus(q.b, r.b), Plus(q.c, r.c), Plus(q.d, r.d)) ==
              Registers(0x98500190, 0xb04fd23c, 0x7d3f96d6, 0x727fe128)
  {
  }

  lemma OutputBytes()
    ensures Output(Registers(0x98500190, 0xb04fd23c, 0x7d3f96d6, 0x727fe128)) ==
      [0x90, 0x01, 0x50, 0x98, 0x3c, 0xd2, 0x4f, 0xb0, 0xd6, 0x96, 0x3f, 0x7d, 0x28, 0xe1, 0x7f, 0x72]
  {
  }

  lemma AbcPadded()
    ensures var s := Padded([0x61, 0x62, 0x63]);
            && |s| == 56 && s[0] == 0x61 && s[1] == 0x62 && s[2] == 0x63 && s[3] == 0x80
            && forall k :: 4 <= k < 56 ==> s[k] == 0
  {
    assert ZeroCount(3) == 52;
  }

  lemma FirstWords(s: seq<Byte>)
    requires |s| == 56 && s[0] == 0x61 && s[1] == 0x62 && s[2] == 0x63 && s[3] == 0x80
    requires forall k :: 4 <= k < 56 ==> s[k] == 0
    ensures Words(s)[0] == 0x80636261 && forall k :: 1 <= k < 14 ==> Words(s)[k] == 0
  {
    assert Decode(0x61, 0x62, 0x63, 0x80) == 0x80636261 && Decode(0, 0, 0, 0) == 0;
  }

  lemma MessageBlock()
    ensures IsBlock(MessageWords([0x61, 0x62, 0x63]))
  {
    hide Padded, LengthWords, Words;
    AbcPadded();
    FirstWords(Padded([0x61, 0x62, 0x63]));
    Lengths();
  }

  lemma BlockLength(x: seq<Word>)
    requires IsBlock(x)
    ensures |x| == 16
  {
  }

  /** The third test vector. */
  lemma DigestOfAbc()
    ensures Digest([0x61, 0x62, 0x63]) ==
      [0x90, 0x01, 0x50, 0x98, 0x3c, 0xd2, 0x4f, 0xb0, 0xd6, 0x96, 0x3f, 0x7d, 0x28, 0xe1, 0x7f, 0x72]
  {
    hide Steps, Process, InitialRegisters, MessageWords, Output, IsBlock, Plus;
    var x := MessageWords([0x61, 0x62, 0x63]);
    MessageBlock();
    BlockLength(x);
    OneBlock(InitialRegisters(), x);
    AllSteps(x);
    SumOfRegisters();
    OutputBytes();
  }
}
