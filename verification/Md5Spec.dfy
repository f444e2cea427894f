/** The MD5 message digest as RFC 1321 defines it, sections 3.1 to 3.5. */
module Md5Spec {
  type Word = bv32
  type Byte = bv8

  // ---- Section 3.4: the functions F, G, H, I and the 64 steps ----

  function Mix(i: nat, x: Word, y: Word, z: Word): Word
    requires i < 64
  {
    if i < 16 then (x & y) | (!x & z)
    else if i < 32 then (x & z) | (y & !z)
    else if i < 48 then x ^ y ^ z
    else y ^ (x | !z)
  }

  /** Which word of the block step `i` uses. */
  function WordIndex(i: nat): (k: nat)
    requires i < 64
    ensures k < 16
  {
    if i < 16 then i
    else if i < 32 then (5 * i + 1) % 16
    else if i < 48 then (3 * i + 5) % 16
    else (7 * i) % 16
  }

  /** By how much step `i` rotates. */
  function Shift(i: nat): (s: Word)
    requires i < 64
    ensures 0 < s < 32
  {
    if i < 16 then (if i % 4 == 0 then 7 else if i % 4 == 1 then 12 else if i % 4 == 2 then 17 else 22)
    else if i < 32 then (if i % 4 == 0 then 5 else if i % 4 == 1 then 9 else if i % 4 == 2 then 14 else 20)
    else if i < 48 then (if i % 4 == 0 then 4 else if i % 4 == 1 then 11 else if i % 4 == 2 then 16 else 23)
    else (if i % 4 == 0 then 6 else if i % 4 == 1 then 10 else if i % 4 == 2 then 15 else 21)
  }

  function Sine1(i: nat): Word {
    match i
    case 0 => 0xd76aa478
    case 1 => 0xe8c7b756
    case 2 => 0x242070db
    case 3 => 0xc1bdceee
    case 4 => 0xf57c0faf
    case 5 => 0x4787c62a
    case 6 => 0xa8304613
    case 7 => 0xfd469501
    case 8 => 0x698098d8
    case 9 => 0x8b44f7af
    case 10 => 0xffff5bb1
    case 11 => 0x895cd7be
    case 12 => 0x6b901122
    case 13 => 0xfd987193
    case 14 => 0xa679438e
    case _ => 0x49b40821
  }

  function Sine2(i: nat): Word {
    match i
    case 0 => 0xf61e2562
    case 1 => 0xc040b340
    case 2 => 0x265e5a51
    case 3 => 0xe9b6c7aa
    case 4 => 0xd62f105d
    case 5 => 0x02441453
    case 6 => 0xd8a1e681
    case 7 => 0xe7d3fbc8
    case 8 => 0x21e1cde6
    case 9 => 0xc33707d6
    case 10 => 0xf4d50d87
    case 11 => 0x455a14ed
    case 12 => 0xa9e3e905
    case 13 => 0xfcefa3f8
    case 14 => 0x676f02d9
    case _ => 0x8d2a4c8a
  }

  function Sine3(i: nat): Word {
    match i
    case 0 => 0xfffa3942
    case 1 => 0x8771f681
    case 2 => 0x6d9d6122
    case 3 => 0xfde5380c
    case 4 => 0xa4beea44
    case 5 => 0x4bdecfa9
    case 6 => 0xf6bb4b60
    case 7 => 0xbebfbc70
    case 8 => 0x289b7ec6
    case 9 => 0xeaa127fa
    case 10 => 0xd4ef3085
    case 11 => 0x04881d05
    case 12 => 0xd9d4d039
    case 13 => 0xe6db99e5
    case 14 => 0x1fa27cf8
    case _ => 0xc4ac5665
  }

  function Sine4(i: nat): Word {
    match i
    case 0 => 0xf4292244
    case 1 => 0x432aff97
    case 2 => 0xab9423a7
    case 3 => 0xfc93a039
    case 4 => 0x655b59c3
    case 5 => 0x8f0ccc92
    case 6 => 0xffeff47d
    case 7 => 0x85845dd1
    case 8 => 0x6fa87e4f
    case 9 => 0xfe2ce6e0
    case 10 => 0xa3014314
    case 11 => 0x4e0811a1
    case 12 => 0xf7537e82
    case 13 => 0xbd3af235
    case 14 => 0x2ad7d2bb
    case _ => 0xeb86d391
  }

  /** The table T: the integer part of 4294967296 times abs(sin(i + 1)), sixteen entries for each round. */
  function Sine(i: nat): Word
    requires i < 64
  {
    if i < 16 then Sine1(i) else if i < 32 then Sine2(i - 16) else if i < 48 then Sine3(i - 32) else Sine4(i - 48)
  }

  datatype Registers = Registers(a: Word, b: Word, c: Word, d: Word)

  /** `X <<< s`: rotation to the left. */
  function Rotate(x: Word, s: Word): Word
    requires 0 < s < 32
  {
    (x << s) | (x >> (32 - s))
  }

  /** Addition modulo 2^32. */
  function Plus(x: Word, y: Word): Word {
    x + y
  }

  /** Steps `lo` to `hi - 1` of a block. */
  function Steps(lo: nat, hi: nat, q: Registers, x: seq<Word>): Registers
    requires lo <= hi <= 64 && |x| == 16
    decreases hi, 0
  {
    if lo == hi then q else StepAt(lo, hi - 1, q, x)
  }

  /** Step `i` after the steps from `lo`: `a = b + ((a + f(b, c, d) + X[k] + T[i]) <<< s)`, after which the names move
      round by one place. (Addition modulo 2^32 is associative; the sum is taken from the right.) */
  function StepAt(lo: nat, i: nat, q0: Registers, x: seq<Word>): Registers
    requires lo <= i < 64 && |x| == 16
    decreases i, 1
  {
    var q := Steps(lo, i, q0, x);
    var sum := Plus(q.a, Plus(Mix(i, q.b, q.c, q.d), Plus(x[WordIndex(i)], Sine(i))));
    Registers(q.d, Plus(q.b, Rotate(sum, Shift(i))), q.b, q.c)
  }

  // ---- Section 2: bytes and words, low-order byte first ----

  function Decode(b0: Byte, b1: Byte, b2: Byte, b3: Byte): Word {
    (b0 as bv32) | ((b1 as bv32) << 8) | ((b2 as bv32) << 16) | ((b3 as bv32) << 24)
  }

  function Encode(w: Word): (s: seq<Byte>)
    ensures |s| == 4
  {
    [(w & 0xff) as bv8, ((w >> 8) & 0xff) as bv8, ((w >> 16) & 0xff) as bv8, ((w >> 24) & 0xff) as bv8]
  }

  /** A byte string read as words. */
  function Words(s: seq<Byte>): (x: seq<Word>)
    requires |s| % 4 == 0
    ensures |x| == |s| / 4
  {
    seq(|s| / 4, i requires 0 <= i < |s| / 4 => Decode(s[4 * i], s[4 * i + 1], s[4 * i + 2], s[4 * i + 3]))
  }

  // ---- Sections 3.1 and 3.2: padding and length ----

  function Zeros(n: nat): (s: seq<Byte>)
    ensures |s| == n
  {
    seq(n, i => 0 as Byte)
  }

  /** How many zero bytes follow the 0x80 so that the length becomes 56 modulo 64. */
  function ZeroCount(length: nat): (n: nat)
    ensures n < 64 && (length + 1 + n) % 64 == 56
  {
    (119 - length % 64) % 64
  }

  function Padded(message: seq<Byte>): (s: seq<Byte>)
    ensures |s| % 64 == 56
  {
    message + [0x80 as Byte] + Zeros(ZeroCount(|message|))
  }

  lemma FourteenMore(n: nat)
    requires n % 64 == 56
    ensures n % 4 == 0 && (n / 4 + 2) % 16 == 0
  {
    var q := n / 64;
    assert n == 4 * (16 * q + 14);
    assert n / 4 + 2 == 16 * (q + 1);
  }

  function ToWord(n: nat): Word
    requires n < 0x1_0000_0000
  {
    n as Word
  }

  /** The length in bits modulo 2^64 as two words, low-order word first. */
  function LengthWords(length: nat): (x: seq<Word>)
    ensures |x| == 2
  {
    var bits := 8 * length % 0x1_0000_0000_0000_0000;
    [ToWord(bits % 0x1_0000_0000), ToWord(bits / 0x1_0000_0000)]
  }

  function MessageWords(message: seq<Byte>): (x: seq<Word>)
    ensures |x| % 16 == 0
  {
    FourteenMore(|Padded(message)|);
    Words(Padded(message)) + LengthWords(|message|)
  }

  // ---- Sections 3.3 to 3.5 ----

  function InitialRegisters(): Registers {
    Registers(0x67452301, 0xefcdab89, 0x98badcfe, 0x10325476)
  }

  /** The registers after processing a sequence of words in 16-word blocks. */
  function Process(q: Registers, x: seq<Word>): Registers
    requires |x| % 16 == 0
    decreases |x|, 1
  {
    if |x| < 16 then q else ProcessLast(q, x)
  }

  /** The last block: the registers before it plus those its 64 steps make of them. */
  function ProcessLast(q0: Registers, x: seq<Word>): Registers
    requires |x| % 16 == 0 && |x| >= 16
    decreases |x|, 0
  {
    var q := Process(q0, x[..|x| - 16]);
    var r := Steps(0, 64, q, x[|x| - 16..]);
    Registers(Plus(q.a, r.a), Plus(q.b, r.b), Plus(q.c, r.c), Plus(q.d, r.d))
  }

  /** A, B, C, D, each low-order byte first. */
  function Output(q: Registers): (s: seq<Byte>)
    ensures |s| == 16
  {
    Encode(q.a) + Encode(q.b) + Encode(q.c) + Encode(q.d)
  }

  function Digest(message: seq<Byte>): (s: seq<Byte>)
    ensures |s| == 16
  {
    Output(Process(InitialRegisters(), MessageWords(message)))
  }
}
