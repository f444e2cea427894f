/** The unrolled compression function of src/md5.cpp and the macros of src/md5.h. */
module Md5Transform {
  import opened Md5Spec

  function F1(x: Word, y: Word, z: Word): Word {
    z ^ (x & (y ^ z))
  }

  function F2(x: Word, y: Word, z: Word): Word {
    F1(z, x, y)
  }

  function F3(x: Word, y: Word, z: Word): Word {
    x ^ y ^ z
  }

  function F4(x: Word, y: Word, z: Word): Word {
    y ^ (x | !z)
  }

  /** The value MD5STEP gives its first argument `w`, where `f` is the round function's value. */
  function Md5Step(f: Word, w: Word, x: Word, data: Word, s: Word): Word
    requires 0 < s < 32
  {
    Plus(Rotate(Plus(w, Plus(f, data)), s), x)
  }

  lemma Choose(x: Word, y: Word, z: Word)
    ensures z ^ (x & (y ^ z)) == (x & y) | (!x & z)
  {
  }

  lemma ChooseByLast(x: Word, y: Word, z: Word)
    ensures y ^ (z & (x ^ y)) == (x & z) | (y & !z)
  {
  }

  /** The optimised F1 is the standard's F on all words. */
  lemma F1IsStandard(i: nat, x: Word, y: Word, z: Word)
    requires i < 16
    ensures F1(x, y, z) == Mix(i, x, y, z)
  {
    Choose(x, y, z);
  }

  /** F2, written as F1 with its arguments turned round, is the standard's G. */
  lemma F2IsStandard(i: nat, x: Word, y: Word, z: Word)
    requires 16 <= i < 32
    ensures F2(x, y, z) == Mix(i, x, y, z)
  {
    ChooseByLast(x, y, z);
  }

  lemma F3IsStandard(i: nat, x: Word, y: Word, z: Word)
    requires 32 <= i < 48
    ensures F3(x, y, z) == Mix(i, x, y, z)
  {
  }

  lemma F4IsStandard(i: nat, x: Word, y: Word, z: Word)
    requires 48 <= i < 64
    ensures F4(x, y, z) == Mix(i, x, y, z)
  {
  }

  lemma PlusCommutes(x: Word, y: Word)
    ensures Plus(x, y) == Plus(y, x)
  {
  }

  lemma NoSteps(i: nat, q: Registers, x: seq<Word>)
    requires i <= 64 && |x| == 16
    ensures Steps(i, i, q, x) == q
  {
  }

  lemma {:induction false} StepsCompose(lo: nat, mid: nat, hi: nat, q: Registers, x: seq<Word>)
    requires lo <= mid <= hi <= 64 && |x| == 16
    ensures Steps(lo, hi, q, x) == Steps(mid, hi, Steps(lo, mid, q, x), x)
    decreases hi
  {
    hide Plus, Mix, Rotate, WordIndex, Sine, Shift;
    if mid == hi {
    } else {
      StepsCompose(lo, mid, hi - 1, q, x);
      assert StepAt(lo, hi - 1, q, x) == StepAt(mid, hi - 1, Steps(lo, mid, q, x), x);
    }
  }

  /** One line of round 1: the standard's step, with the new value computed by the macro. */
  lemma NextF1(lo: nat, i: nat, q0: Registers, x: seq<Word>)
    requires 0 <= i < 16 && lo <= i && |x| == 16
    ensures var q := Steps(lo, i, q0, x);
            Steps(lo, i + 1, q0, x) == Registers(
              q.d, Md5Step(F1(q.b, q.c, q.d), q.a, q.b, Plus(x[WordIndex(i)], Sine(i)), Shift(i)), q.b, q.c)
  {
    hide Rotate, F1, Mix, Plus;
    var q := Steps(lo, i, q0, x);
    F1IsStandard(i, q.b, q.c, q.d);
    var sum := Plus(q.a, Plus(Mix(i, q.b, q.c, q.d), Plus(x[WordIndex(i)], Sine(i))));
    PlusCommutes(Rotate(sum, Shift(i)), q.b);
  }

  /** One line of round 2: the standard's step, with the new value computed by the macro. */
  lemma NextF2(lo: nat, i: nat, q0: Registers, x: seq<Word>)
    requires 16 <= i < 32 && lo <= i && |x| == 16
    ensures var q := Steps(lo, i, q0, x);
            Steps(lo, i + 1, q0, x) == Registers(
              q.d, Md5Step(F2(q.b, q.c, q.d), q.a, q.b, Plus(x[WordIndex(i)], Sine(i)), Shift(i)), q.b, q.c)
  {
    hide Rotate, F2, Mix, Plus;
    var q := Steps(lo, i, q0, x);
    F2IsStandard(i, q.b, q.c, q.d);
    var sum := Plus(q.a, Plus(Mix(i, q.b, q.c, q.d), Plus(x[WordIndex(i)], Sine(i))));
    PlusCommutes(Rotate(sum, Shift(i)), q.b);
  }

  /** One line of round 3: the standard's step, with the new value computed by the macro. */
  lemma NextF3(lo: nat, i: nat, q0: Registers, x: seq<Word>)
    requires 32 <= i < 48 && lo <= i && |x| == 16
    ensures var q := Steps(lo, i, q0, x);
            Steps(lo, i + 1, q0, x) == Registers(
              q.d, Md5Step(F3(q.b, q.c, q.d), q.a, q.b, Plus(x[WordIndex(i)], Sine(i)), Shift(i)), q.b, q.c)
  {
    hide Rotate, F3, Mix, Plus;
    var q := Steps(lo, i, q0, x);
    F3IsStandard(i, q.b, q.c, q.d);
    var sum := Plus(q.a, Plus(Mix(i, q.b, q.c, q.d), Plus(x[WordIndex(i)], Sine(i))));
    PlusCommutes(Rotate(sum, Shift(i)), q.b);
  }

  /** One line of round 4: the standard's step, with the new value computed by the macro. */
  lemma NextF4(lo: nat, i: nat, q0: Registers, x: seq<Word>)
    requires 48 <= i < 64 && lo <= i && |x| == 16
    ensures var q := Steps(lo, i, q0, x);
            Steps(lo, i + 1, q0, x) == Registers(
              q.d, Md5Step(F4(q.b, q.c, q.d), q.a, q.b, Plus(x[WordIndex(i)], Sine(i)), Shift(i)), q.b, q.c)
  {
    hide Rotate, F4, Mix, Plus;
    var q := Steps(lo, i, q0, x);
    F4IsStandard(i, q.b, q.c, q.d);
    var sum := Plus(q.a, Plus(Mix(i, q.b, q.c, q.d), Plus(x[WordIndex(i)], Sine(i))));
    PlusCommutes(Rotate(sum, Shift(i)), q.b);
  }

  /** The word indices, constants and shifts written out in the lines of round 1 are those of the standard. */
  lemma Schedule1()
    ensures WordIndex(0) == 0 && Sine(0) == 0xd76aa478 && Shift(0) == 7
    ensures WordIndex(1) == 1 && Sine(1) == 0xe8c7b756 && Shift(1) == 12
    ensures WordIndex(2) == 2 && Sine(2) == 0x242070db && Shift(2) == 17
    ensures WordIndex(3) == 3 && Sine(3) == 0xc1bdceee && Shift(3) == 22
    ensures WordIndex(4) == 4 && Sine(4) == 0xf57c0faf && Shift(4) == 7
    ensures WordIndex(5) == 5 && Sine(5) == 0x4787c62a && Shift(5) == 12
    ensures WordIndex(6) == 6 && Sine(6) == 0xa8304613 && Shift(6) == 17
    ensures WordIndex(7) == 7 && Sine(7) == 0xfd469501 && Shift(7) == 22
    ensures WordIndex(8) == 8 && Sine(8) == 0x698098d8 && Shift(8) == 7
    ensures WordIndex(9) == 9 && Sine(9) == 0x8b44f7af && Shift(9) == 12
    ensures WordIndex(10) == 10 && Sine(10) == 0xffff5bb1 && Shift(10) == 17
    ensures WordIndex(11) == 11 && Sine(11) == 0x895cd7be && Shift(11) == 22
    ensures WordIndex(12) == 12 && Sine(12) == 0x6b901122 && Shift(12) == 7
    ensures WordIndex(13) == 13 && Sine(13) == 0xfd987193 && Shift(13) == 12
    ensures WordIndex(14) == 14 && Sine(14) == 0xa679438e && Shift(14) == 17
    ensures WordIndex(15) == 15 && Sine(15) == 0x49b40821 && Shift(15) == 22
  {
  }

  /** The word indices, constants and shifts written out in the lines of round 2 are those of the standard. */
  lemma Schedule2()
    ensures WordIndex(16) == 1 && Sine(16) == 0xf61e2562 && Shift(16) == 5
    ensures WordIndex(17) == 6 && Sine(17) == 0xc040b340 && Shift(17) == 9
    ensures WordIndex(18) == 11 && Sine(18) == 0x265e5a51 && Shift(18) == 14
    ensures WordIndex(19) == 0 && Sine(19) == 0xe9b6c7aa && Shift(19) == 20
    ensures WordIndex(20) == 5 && Sine(20) == 0xd62f105d && Shift(20) == 5
    ensures WordIndex(21) == 10 && Sine(21) == 0x02441453 && Shift(21) == 9
    ensures WordIndex(22) == 15 && Sine(22) == 0xd8a1e681 && Shift(22) == 14
    ensures WordIndex(23) == 4 && Sine(23) == 0xe7d3fbc8 && Shift(23) == 20
    ensures WordIndex(24) == 9 && Sine(24) == 0x21e1cde6 && Shift(24) == 5
    ensures WordIndex(25) == 14 && Sine(25) == 0xc33707d6 && Shift(25) == 9
    ensures WordIndex(26) == 3 && Sine(26) == 0xf4d50d87 && Shift(26) == 14
    ensures WordIndex(27) == 8 && Sine(27) == 0x455a14ed && Shift(27) == 20
    ensures WordIndex(28) == 13 && Sine(28) == 0xa9e3e905 && Shift(28) == 5
    ensures WordIndex(29) == 2 && Sine(29) == 0xfcefa3f8 && Shift(29) == 9
    ensures WordIndex(30) == 7 && Sine(30) == 0x676f02d9 && Shift(30) == 14
    ensures WordIndex(31) == 12 && Sine(31) == 0x8d2a4c8a && Shift(31) == 20
  {
  }

  /** The word indices, constants and shifts written out in the lines of round 3 are those of the standard. */
  lemma Schedule3()
    ensures WordIndex(32) == 5 && Sine(32) == 0xfffa3942 && Shift(32) == 4
    ensures WordIndex(33) == 8 && Sine(33) == 0x8771f681 && Shift(33) == 11
    ensures WordIndex(34) == 11 && Sine(34) == 0x6d9d6122 && Shift(34) == 16
    ensures WordIndex(35) == 14 && Sine(35) == 0xfde5380c && Shift(35) == 23
    ensures WordIndex(36) == 1 && Sine(36) == 0xa4beea44 && Shift(36) == 4
    ensures WordIndex(37) == 4 && Sine(37) == 0x4bdecfa9 && Shift(37) == 11
    ensures WordIndex(38) == 7 && Sine(38) == 0xf6bb4b60 && Shift(38) == 16
    ensures WordIndex(39) == 10 && Sine(39) == 0xbebfbc70 && Shift(39) == 23
    ensures WordIndex(40) == 13 && Sine(40) == 0x289b7ec6 && Shift(40) == 4
    ensures WordIndex(41) == 0 && Sine(41) == 0xeaa127fa && Shift(41) == 11
    ensures WordIndex(42) == 3 && Sine(42) == 0xd4ef3085 && Shift(42) == 16
    ensures WordIndex(43) == 6 && Sine(43) == 0x04881d05 && Shift(43) == 23
    ensures WordIndex(44) == 9 && Sine(44) == 0xd9d4d039 && Shift(44) == 4
    ensures WordIndex(45) == 12 && Sine(45) == 0xe6db99e5 && Shift(45) == 11
    ensures WordIndex(46) == 15 && Sine(46) == 0x1fa27cf8 && Shift(46) == 16
    ensures WordIndex(47) == 2 && Sine(47) == 0xc4ac5665 && Shift(47) == 23
  {
  }

  /** The word indices, constants and shifts written out in the lines of round 4 are those of the standard. */
  lemma Schedule4()
    ensures WordIndex(48) == 0 && Sine(48) == 0xf4292244 && Shift(48) == 6
    ensures WordIndex(49) == 7 && Sine(49) == 0x432aff97 && Shift(49) == 10
    ensures WordIndex(50) == 14 && Sine(50) == 0xab9423a7 && Shift(50) == 15
    ensures WordIndex(51) == 5 && Sine(51) == 0xfc93a039 && Shift(51) == 21
    ensures WordIndex(52) == 12 && Sine(52) == 0x655b59c3 && Shift(52) == 6
    ensures WordIndex(53) == 3 && Sine(53) == 0x8f0ccc92 && Shift(53) == 10
    ensures WordIndex(54) == 10 && Sine(54) == 0xffeff47d && Shift(54) == 15
    ensures WordIndex(55) == 1 && Sine(55) == 0x85845dd1 && Shift(55) == 21
    ensures WordIndex(56) == 8 && Sine(56) == 0x6fa87e4f && Shift(56) == 6
    ensures WordIndex(57) == 15 && Sine(57) == 0xfe2ce6e0 && Shift(57) == 10
    ensures WordIndex(58) == 6 && Sine(58) == 0xa3014314 && Shift(58) == 15
    ensures WordIndex(59) == 13 && Sine(59) == 0x4e0811a1 && Shift(59) == 21
    ensures WordIndex(60) == 4 && Sine(60) == 0xf7537e82 && Shift(60) == 6
    ensures WordIndex(61) == 11 && Sine(61) == 0xbd3af235 && Shift(61) == 10
    ensures WordIndex(62) == 2 && Sine(62) == 0x2ad7d2bb && Shift(62) == 15
    ensures WordIndex(63) == 9 && Sine(63) == 0xeb86d391 && Shift(63) == 21
  {
  }

  // ---- The four blocks of sixteen lines ----

  method Round1(block: seq<Word>, a0: Word, b0: Word, c0: Word, d0: Word)
    returns (a: Word, b: Word, c: Word, d: Word)
    requires |block| == 16
    ensures Registers(a, b, c, d) == Steps(0, 16, Registers(a0, b0, c0, d0), block)
  {
    Schedule1();
    hide Rotate, Md5Step, F1, Mix, Plus, Steps, StepAt, WordIndex, Sine, Shift;
    ghost var q := Registers(a0, b0, c0, d0);
    NoSteps(0, q, block);
    a, b, c, d := a0, b0, c0, d0;
    NextF1(0, 0, q, block);
    a := Md5Step(F1(b, c, d), a, b, Plus(block[0], 0xd76aa478), 7);
    NextF1(0, 1, q, block);
    d := Md5Step(F1(a, b, c), d, a, Plus(block[1], 0xe8c7b756), 12);
    assert Registers(c, d, a, b) == Steps(0, 2, q, block);
    NextF1(0, 2, q, block);
    c := Md5Step(F1(d, a, b), c, d, Plus(block[2], 0x242070db), 17);
    NextF1(0, 3, q, block);
    b := Md5Step(F1(c, d, a), b, c, Plus(block[3], 0xc1bdceee), 22);
    assert Registers(a, b, c, d) == Steps(0, 4, q, block);
    NextF1(0, 4, q, block);
    a := Md5Step(F1(b, c, d), a, b, Plus(block[4], 0xf57c0faf), 7);
    NextF1(0, 5, q, block);
    d := Md5Step(F1(a, b, c), d, a, Plus(block[5], 0x4787c62a), 12);
    assert Registers(c, d, a, b) == Steps(0, 6, q, block);
    NextF1(0, 6, q, block);
    c := Md5Step(F1(d, a, b), c, d, Plus(block[6], 0xa8304613), 17);
    NextF1(0, 7, q, block);
    b := Md5Step(F1(c, d, a), b, c, Plus(block[7], 0xfd469501), 22);
    assert Registers(a, b, c, d) == Steps(0, 8, q, block);
    NextF1(0, 8, q, block);
    a := Md5Step(F1(b, c, d), a, b, Plus(block[8], 0x698098d8), 7);
    NextF1(0, 9, q, block);
    d := Md5Step(F1(a, b, c), d, a, Plus(block[9], 0x8b44f7af), 12);
    assert Registers(c, d, a, b) == Steps(0, 10, q, block);
    NextF1(0, 10, q, block);
    c := Md5Step(F1(d, a, b), c, d, Plus(block[10], 0xffff5bb1), 17);
    NextF1(0, 11, q, block);
    b := Md5Step(F1(c, d, a), b, c, Plus(block[11], 0x895cd7be), 22);
    assert Registers(a, b, c, d) == Steps(0, 12, q, block);
    NextF1(0, 12, q, block);
    a := Md5Step(F1(b, c, d), a, b, Plus(block[12], 0x6b901122), 7);
    NextF1(0, 13, q, block);
    d := Md5Step(F1(a, b, c), d, a, Plus(block[13], 0xfd987193), 12);
    assert Registers(c, d, a, b) == Steps(0, 14, q, block);
    NextF1(0, 14, q, block);
    c := Md5Step(F1(d, a, b), c, d, Plus(block[14], 0xa679438e), 17);
    NextF1(0, 15, q, block);
    b := Md5Step(F1(c, d, a), b, c, Plus(block[15], 0x49b40821), 22);
    assert Registers(a, b, c, d) == Steps(0, 16, q, block);
  }

  method Round2(block: seq<Word>, a0: Word, b0: Word, c0: Word, d0: Word)
    returns (a: Word, b: Word, c: Word, d: Word)
    requires |block| == 16
    ensures Registers(a, b, c, d) == Steps(16, 32, Registers(a0, b0, c0, d0), block)
  {
    Schedule2();
    hide Rotate, Md5Step, F2, Mix, Plus, Steps, StepAt, WordIndex, Sine, Shift;
    ghost var q := Registers(a0, b0, c0, d0);
    NoSteps(16, q, block);
    a, b, c, d := a0, b0, c0, d0;
    NextF2(16, 16, q, block);
    a := Md5Step(F2(b, c, d), a, b, Plus(block[1], 0xf61e2562), 5);
    NextF2(16, 17, q, block);
    d := Md5Step(F2(a, b, c), d, a, Plus(block[6], 0xc040b340), 9);
    NextF2(16, 18, q, block);
    c := Md5Step(F2(d, a, b), c, d, Plus(block[11], 0x265e5a51), 14);
    NextF2(16, 19, q, block);
    b := Md5Step(F2(c, d, a), b, c, Plus(block[0], 0xe9b6c7aa), 20);
    assert Registers(a, b, c, d) == Steps(16, 20, q, block);
    NextF2(16, 20, q, block);
    a := Md5Step(F2(b, c, d), a, b, Plus(block[5], 0xd62f105d), 5);
    NextF2(16, 21, q, block);
    d := Md5Step(F2(a, b, c), d, a, Plus(block[10], 0x02441453), 9);
    NextF2(16, 22, q, block);
    c := Md5Step(F2(d, a, b), c, d, Plus(block[15], 0xd8a1e681), 14);
    NextF2(16, 23, q, block);
    b := Md5Step(F2(c, d, a), b, c, Plus(block[4], 0xe7d3fbc8), 20);
    assert Registers(a, b, c, d) == Steps(16, 24, q, block);
    NextF2(16, 24, q, block);
    a := Md5Step(F2(b, c, d), a, b, Plus(block[9], 0x21e1cde6), 5);
    NextF2(16, 25, q, block);
    d := Md5Step(F2(a, b, c), d, a, Plus(block[14], 0xc33707d6), 9);
    NextF2(16, 26, q, block);
    c := Md5Step(F2(d, a, b), c, d, Plus(block[3], 0xf4d50d87), 14);
    NextF2(16, 27, q, block);
    b := Md5Step(F2(c, d, a), b, c, Plus(block[8], 0x455a14ed), 20);
    assert Registers(a, b, c, d) == Steps(16, 28, q, block);
    NextF2(16, 28, q, block);
    a := Md5Step(F2(b, c, d), a, b, Plus(block[13], 0xa9e3e905), 5);
    NextF2(16, 29, q, block);
    d := Md5Step(F2(a, b, c), d, a, Plus(block[2], 0xfcefa3f8), 9);
    NextF2(16, 30, q, block);
    c := Md5Step(F2(d, a, b), c, d, Plus(block[7], 0x676f02d9), 14);
    NextF2(16, 31, q, block);
    b := Md5Step(F2(c, d, a), b, c, Plus(block[12], 0x8d2a4c8a), 20);
    assert Registers(a, b, c, d) == Steps(16, 32, q, block);
  }

  method Round3(block: seq<Word>, a0: Word, b0: Word, c0: Word, d0: Word)
    returns (a: Word, b: Word, c: Word, d: Word)
    requires |block| == 16
    ensures Registers(a, b, c, d) == Steps(32, 48, Registers(a0, b0, c0, d0), block)
  {
    Schedule3();
    hide Rotate, Md5Step, F3, Mix, Plus, Steps, StepAt, WordIndex, Sine, Shift;
    ghost var q := Registers(a0, b0, c0, d0);
    NoSteps(32, q, block);
    a, b, c, d := a0, b0, c0, d0;
    NextF3(32, 32, q, block);
    a := Md5Step(F3(b, c, d), a, b, Plus(block[5], 0xfffa3942), 4);
    NextF3(32, 33, q, block);
    d := Md5Step(F3(a, b, c), d, a, Plus(block[8], 0x8771f681), 11);
    NextF3(32, 34, q, block);
    c := Md5Step(F3(d, a, b), c, d, Plus(block[11], 0x6d9d6122), 16);
    NextF3(32, 35, q, block);
    b := Md5Step(F3(c, d, a), b, c, Plus(block[14], 0xfde5380c), 23);
    assert Registers(a, b, c, d) == Steps(32, 36, q, block);
    NextF3(32, 36, q, block);
    a := Md5Step(F3(b, c, d), a, b, Plus(block[1], 0xa4beea44), 4);
    NextF3(32, 37, q, block);
    d := Md5Step(F3(a, b, c), d, a, Plus(block[4], 0x4bdecfa9), 11);
    NextF3(32, 38, q, block);
    c := Md5Step(F3(d, a, b), c, d, Plus(block[7], 0xf6bb4b60), 16);
    NextF3(32, 39, q, block);
    b := Md5Step(F3(c, d, a), b, c, Plus(block[10], 0xbebfbc70), 23);
    assert Registers(a, b, c, d) == Steps(32, 40, q, block);
    NextF3(32, 40, q, block);
    a := Md5Step(F3(b, c, d), a, b, Plus(block[13], 0x289b7ec6), 4);
    NextF3(32, 41, q, block);
    d := Md5Step(F3(a, b, c), d, a, Plus(block[0], 0xeaa127fa), 11);
    NextF3(32, 42, q, block);
    c := Md5Step(F3(d, a, b), c, d, Plus(block[3], 0xd4ef3085), 16);
    NextF3(32, 43, q, block);
    b := Md5Step(F3(c, d, a), b, c, Plus(block[6], 0x04881d05), 23);
    assert Registers(a, b, c, d) == Steps(32, 44, q, block);
    NextF3(32, 44, q, block);
    a := Md5Step(F3(b, c, d), a, b, Plus(block[9], 0xd9d4d039), 4);
    NextF3(32, 45, q, block);
    d := Md5Step(F3(a, b, c), d, a, Plus(block[12], 0xe6db99e5), 11);
    NextF3(32, 46, q, block);
    c := Md5Step(F3(d, a, b), c, d, Plus(block[15], 0x1fa27cf8), 16);
    NextF3(32, 47, q, block);
    b := Md5Step(F3(c, d, a), b, c, Plus(block[2], 0xc4ac5665), 23);
    assert Registers(a, b, c, d) == Steps(32, 48, q, block);
  }

  method Round4(block: seq<Word>, a0: Word, b0: Word, c0: Word, d0: Word)
    returns (a: Word, b: Word, c: Word, d: Word)
    requires |block| == 16
    ensures Registers(a, b, c, d) == Steps(48, 64, Registers(a0, b0, c0, d0), block)
  {
    Schedule4();
    hide Rotate, Md5Step, F4, Mix, Plus, Steps, StepAt, WordIndex, Sine, Shift;
    ghost var q := Registers(a0, b0, c0, d0);
    NoSteps(48, q, block);
    a, b, c, d := a0, b0, c0, d0;
    NextF4(48, 48, q, block);
    a := Md5Step(F4(b, c, d), a, b, Plus(block[0], 0xf4292244), 6);
    NextF4(48, 49, q, block);
    d := Md5Step(F4(a, b, c), d, a, Plus(block[7], 0x432aff97), 10);
    NextF4(48, 50, q, block);
    c := Md5Step(F4(d, a, b), c, d, Plus(block[14], 0xab9423a7), 15);
    NextF4(48, 51, q, block);
    b := Md5Step(F4(c, d, a), b, c, Plus(block[5], 0xfc93a039), 21);
    assert Registers(a, b, c, d) == Steps(48, 52, q, block);
    NextF4(48, 52, q, block);
    a := Md5Step(F4(b, c, d), a, b, Plus(block[12], 0x655b59c3), 6);
    NextF4(48, 53, q, block);
    d := Md5Step(F4(a, b, c), d, a, Plus(block[3], 0x8f0ccc92), 10);
    NextF4(48, 54, q, block);
    c := Md5Step(F4(d, a, b), c, d, Plus(block[10], 0xffeff47d), 15);
    NextF4(48, 55, q, block);
    b := Md5Step(F4(c, d, a), b, c, Plus(block[1], 0x85845dd1), 21);
    assert Registers(a, b, c, d) == Steps(48, 56, q, block);
    NextF4(48, 56, q, block);
    a := Md5Step(F4(b, c, d), a, b, Plus(block[8], 0x6fa87e4f), 6);
    NextF4(48, 57, q, block);
    d := Md5Step(F4(a, b, c), d, a, Plus(block[15], 0xfe2ce6e0), 10);
    NextF4(48, 58, q, block);
    c := Md5Step(F4(d, a, b), c, d, Plus(block[6], 0xa3014314), 15);
    NextF4(48, 59, q, block);
    b := Md5Step(F4(c, d, a), b, c, Plus(block[13], 0x4e0811a1), 21);
    assert Registers(a, b, c, d) == Steps(48, 60, q, block);
    NextF4(48, 60, q, block);
    a := Md5Step(F4(b, c, d), a, b, Plus(block[4], 0xf7537e82), 6);
    NextF4(48, 61, q, block);
    d := Md5Step(F4(a, b, c), d, a, Plus(block[11], 0xbd3af235), 10);
    NextF4(48, 62, q, block);
    c := Md5Step(F4(d, a, b), c, d, Plus(block[2], 0x2ad7d2bb), 15);
    NextF4(48, 63, q, block);
    b := Md5Step(F4(c, d, a), b, c, Plus(block[9], 0xeb86d391), 21);
    assert Registers(a, b, c, d) == Steps(48, 64, q, block);
  }

  lemma OneBlock(q: Registers, block: seq<Word>)
    requires |block| == 16
    ensures var r := Steps(0, 64, q, block);
            Process(q, block) == Registers(Plus(q.a, r.a), Plus(q.b, r.b), Plus(q.c, r.c), Plus(q.d, r.d))
  {
    hide Plus, Steps;
    assert block[..0] == [] && block[0..] == block;
    assert Process(q, block[..0]) == q;
    assert Process(q, block) == ProcessLast(q, block);
  }

  function RegistersIn(buf: array<Word>): Registers
    requires buf.Length == 4
    reads buf
  {
    Registers(buf[0], buf[1], buf[2], buf[3])
  }

  /** `transform`: the four registers of `buf` after a block of sixteen words are those of the standard. */
  method Transform(buf: array<Word>, block: seq<Word>)
    requires buf.Length == 4 && |block| == 16
    modifies buf
    ensures RegistersIn(buf) == Process(old(RegistersIn(buf)), block)
  {
    hide Plus, Steps, Process;
    ghost var q := RegistersIn(buf);
    var a, b, c, d := buf[0], buf[1], buf[2], buf[3];
    a, b, c, d := Round1(block, a, b, c, d);
    a, b, c, d := Round2(block, a, b, c, d);
    StepsCompose(0, 16, 32, q, block);
    a, b, c, d := Round3(block, a, b, c, d);
    StepsCompose(0, 32, 48, q, block);
    a, b, c, d := Round4(block, a, b, c, d);
    StepsCompose(0, 48, 64, q, block);
    OneBlock(q, block);
    buf[0] := Plus(buf[0], a);
    buf[1] := Plus(buf[1], b);
    buf[2] := Plus(buf[2], c);
    buf[3] := Plus(buf[3], d);
  }
}
