/** What streaming needs of the standard: blocks one at a time, the bit counter, the padding of the last block. */
module Md5Streaming {
  import opened Md5Spec
  import opened Md5Transform

  /** The part of a message that fills whole blocks. */
  function Full(n: nat): (k: nat)
    ensures k <= n < k + 64 && k % 64 == 0 && n - k == n % 64
  {
    n / 64 * 64
  }

  lemma WordsAt(a: seq<Byte>, b: seq<Byte>, i: nat)
    requires |a| % 4 == 0 && |b| % 4 == 0 && i < |a + b| / 4
    ensures Words(a + b)[i] == if i < |a| / 4 then Words(a)[i] else Words(b)[i - |a| / 4]
  {
    hide Decode;
    if i >= |a| / 4 {
      var j := i - |a| / 4;
      assert 4 * i == |a| + 4 * j;
    }
  }

  lemma WordsConcat(a: seq<Byte>, b: seq<Byte>)
    requires |a| % 4 == 0 && |b| % 4 == 0
    ensures Words(a + b) == Words(a) + Words(b)
  {
    hide Decode;
    var n := |a| / 4;
    forall i | 0 <= i < |a + b| / 4
      ensures Words(a + b)[i] == (Words(a) + Words(b))[i]
    {
      WordsAt(a, b, i);
    }
  }

  lemma WholeBlocks(n: nat)
    requires n % 64 == 0
    ensures n % 4 == 0 && n / 4 % 16 == 0
  {
    var q := n / 64;
    assert n == 4 * (16 * q);
    assert n / 4 == 16 * q;
  }

  /** The words of whole blocks. */
  function BlockWords(m: seq<Byte>): (x: seq<Word>)
    requires |m| % 64 == 0
    ensures |x| % 16 == 0 && |x| == |m| / 4
  {
    WholeBlocks(|m|);
    Words(m)
  }

  /** The registers after the whole blocks `m`. */
  function Absorbed(m: seq<Byte>): Registers
    requires |m| % 64 == 0
  {
    Process(InitialRegisters(), BlockWords(m))
  }

  lemma AbsorbedNothing()
    ensures Absorbed([]) == InitialRegisters()
  {
    hide InitialRegisters, Decode;
    assert BlockWords([]) == [];
  }

  lemma ProcessMore(q0: Registers, x: seq<Word>)
    requires |x| % 16 == 0 && |x| >= 16
    ensures var q, block := Process(q0, x[..|x| - 16]), x[|x| - 16..];
            var r := Steps(0, 64, q, block);
            Process(q0, x) == Registers(Plus(q.a, r.a), Plus(q.b, r.b), Plus(q.c, r.c), Plus(q.d, r.d))
  {
    hide Plus, Steps;
    assert Process(q0, x) == ProcessLast(q0, x);
  }

  lemma ProcessBlock(q: Registers, x: seq<Word>, block: seq<Word>)
    requires |x| % 16 == 0 && |block| == 16
    ensures Process(q, x + block) == Process(Process(q, x), block)
  {
    hide Plus, Steps, Process;
    var all := x + block;
    assert all[..|all| - 16] == x && all[|all| - 16..] == block;
    ProcessMore(q, all);
    OneBlock(Process(q, x), block);
  }

  lemma AbsorbBlock(m: seq<Byte>, block: seq<Byte>)
    requires |m| % 64 == 0 && |block| == 64
    ensures Absorbed(m + block) == Process(Absorbed(m), Words(block))
  {
    hide InitialRegisters, Decode, Words, Process;
    assert BlockWords(m + block) == BlockWords(m) + Words(block) by { WholeBlocks(|m|); WordsConcat(m, block); }
    ProcessBlock(InitialRegisters(), BlockWords(m), Words(block));
  }

  // ---- The bit counter ----

  /** The pair of words holds eight times `n`, modulo 2^64. */
  predicate Counts(low: nat, high: nat, n: nat) {
    low < 0x1_0000_0000 && high < 0x1_0000_0000 && low + 0x1_0000_0000 * high == 8 * n % 0x1_0000_0000_0000_0000
  }

  /** The two counter words of `update`, with the carry found by comparing. */
  function NextLow(low: nat, len: nat): nat {
    (low + len * 8 % 0x1_0000_0000) % 0x1_0000_0000
  }

  function NextHigh(low: nat, high: nat, len: nat): nat {
    ((if NextLow(low, len) < low then (high + 1) % 0x1_0000_0000 else high) + len / 0x2000_0000) % 0x1_0000_0000
  }

  /** The carry is seen by the low word having become smaller. */
  lemma LowWord(low: nat, len: nat, carry: nat)
    requires low < 0x1_0000_0000 && len < 0x1_0000_0000
    requires carry == if low + len * 8 % 0x1_0000_0000 >= 0x1_0000_0000 then 1 else 0
    ensures NextLow(low, len) < 0x1_0000_0000 && (NextLow(low, len) < low <==> carry == 1)
    ensures low + 8 * len == NextLow(low, len) + 0x1_0000_0000 * (carry + len / 0x2000_0000)
  {
    var add := len * 8 % 0x1_0000_0000;
    assert len * 8 == add + 0x1_0000_0000 * (len / 0x2000_0000);
    assert NextLow(low, len) == low + add - 0x1_0000_0000 * carry;
  }

  lemma HighWord(high: nat, carry: nat, more: nat)
    requires high < 0x1_0000_0000 && carry <= 1
    ensures ((if carry == 1 then (high + 1) % 0x1_0000_0000 else high) + more) % 0x1_0000_0000
      == (high + carry + more) % 0x1_0000_0000
  {
  }

  /** A number given by its parts below 2^32, below 2^64 and from there on. */
  lemma SplitAt(low: nat, q: nat, r: nat)
    requires low < 0x1_0000_0000 && r < 0x1_0000_0000
    ensures (low + 0x1_0000_0000 * (q * 0x1_0000_0000 + r)) % 0x1_0000_0000_0000_0000 == low + 0x1_0000_0000 * r
  {
    var rest := low + 0x1_0000_0000 * r;
    assert rest < 0x1_0000_0000_0000_0000;
    assert low + 0x1_0000_0000 * (q * 0x1_0000_0000 + r) == rest + q * 0x1_0000_0000_0000_0000;
  }

  lemma SplitModulo(low: nat, top: nat)
    requires low < 0x1_0000_0000
    ensures (low + 0x1_0000_0000 * top) % 0x1_0000_0000_0000_0000 == low + 0x1_0000_0000 * (top % 0x1_0000_0000)
  {
    SplitAt(low, top / 0x1_0000_0000, top % 0x1_0000_0000);
    assert top == top / 0x1_0000_0000 * 0x1_0000_0000 + top % 0x1_0000_0000;
  }

  lemma AddModulo(a: nat, b: nat)
    ensures (a % 0x1_0000_0000_0000_0000 + b) % 0x1_0000_0000_0000_0000 == (a + b) % 0x1_0000_0000_0000_0000
  {
  }

  lemma HighIs(low: nat, high: nat, len: nat, carry: nat)
    requires high < 0x1_0000_0000 && carry <= 1 && (NextLow(low, len) < low <==> carry == 1)
    ensures NextHigh(low, high, len) == (high + carry + len / 0x2000_0000) % 0x1_0000_0000
  {
    hide NextLow;
    HighWord(high, carry, len / 0x2000_0000);
  }

  lemma CounterSum(low: nat, high: nat, next: nat, more: nat, bits: nat, added: nat)
    requires low + 0x1_0000_0000 * high == bits % 0x1_0000_0000_0000_0000
    requires next < 0x1_0000_0000 && low + added == next + 0x1_0000_0000 * more
    ensures next + 0x1_0000_0000 * ((high + more) % 0x1_0000_0000) == (bits + added) % 0x1_0000_0000_0000_0000
  {
    SplitModulo(next, high + more);
    AddModulo(bits, added);
    assert next + 0x1_0000_0000 * (high + more) == bits % 0x1_0000_0000_0000_0000 + added;
  }

  /** The pair counts bits modulo 2^64, whatever the sizes. */
  lemma CounterStep(low: nat, high: nat, n: nat, len: nat)
    requires Counts(low, high, n) && len < 0x1_0000_0000
    ensures Counts(NextLow(low, len), NextHigh(low, high, len), n + len)
  {
    hide NextLow, NextHigh;
    var carry := if low + len * 8 % 0x1_0000_0000 >= 0x1_0000_0000 then 1 else 0;
    LowWord(low, len, carry);
    HighIs(low, high, len, carry);
    CounterSum(low, high, NextLow(low, len), carry + len / 0x2000_0000, 8 * n, 8 * len);
  }

  /** Both words give the position in the buffer: the number of bytes so far modulo 64. */
  lemma CounterPosition(low: nat, high: nat, n: nat)
    requires Counts(low, high, n)
    ensures low / 8 % 64 == n % 64
  {
    var q := 8 * n / 0x1_0000_0000_0000_0000;
    assert 8 * n == low + 0x1_0000_0000 * high + q * 0x1_0000_0000_0000_0000;
    var whole := 0x80_0000 * high + 0x80_0000_0000_0000 * q;
    assert 8 * n == low + 8 * (64 * whole);
    assert low / 8 == n - 64 * whole;
  }

  lemma CounterWords(low: nat, high: nat, n: nat)
    requires Counts(low, high, n)
    ensures LengthWords(n) == [ToWord(low), ToWord(high)]
  {
    hide ToWord;
    var bits := 8 * n % 0x1_0000_0000_0000_0000;
    assert bits % 0x1_0000_0000 == low && bits / 0x1_0000_0000 == high;
  }

  // ---- The end of a message ----

  /** The tail of the message, the 0x80 and as many zeros as fill the block or leave eight bytes of it. */
  function Tail(message: seq<Byte>): (t: seq<Byte>)
    ensures |t| == |message| % 64
  {
    message[Full(|message|)..]
  }

  /** The tail with its 0x80 and `zeros` zero bytes. */
  function Ending(message: seq<Byte>, zeros: nat): (t: seq<Byte>)
    ensures |t| == |message| % 64 + 1 + zeros
  {
    Tail(message) + [0x80 as Byte] + Zeros(zeros)
  }

  lemma PaddedShort(message: seq<Byte>)
    requires |message| % 64 < 56
    ensures Padded(message) == message[..Full(|message|)] + Ending(message, 55 - |message| % 64)
  {
    assert ZeroCount(|message|) == 55 - |message| % 64;
    assert message == message[..Full(|message|)] + Tail(message);
  }

  lemma PaddedLong(message: seq<Byte>)
    requires |message| % 64 >= 56
    ensures Padded(message) == message[..Full(|message|)] + Ending(message, 63 - |message| % 64) + Zeros(56)
  {
    assert ZeroCount(|message|) == 119 - |message| % 64;
    assert message == message[..Full(|message|)] + Tail(message);
    assert Zeros(119 - |message| % 64) == Zeros(63 - |message| % 64) + Zeros(56);
  }

  /** Whole blocks followed by fifty-six bytes and the length. */
  lemma LastBlock(message: seq<Byte>, blocks: seq<Byte>, front: seq<Byte>)
    requires |blocks| % 64 == 0 && |front| == 56 && Padded(message) == blocks + front
    ensures Process(InitialRegisters(), MessageWords(message)) ==
      Process(Absorbed(blocks), Words(front) + LengthWords(|message|))
  {
    hide InitialRegisters, Decode, Words, LengthWords, Process, Padded;
    var last := Words(front) + LengthWords(|message|);
    assert MessageWords(message) == BlockWords(blocks) + last by {
      WholeBlocks(|blocks|);
      WordsConcat(blocks, front);
      assert BlockWords(blocks) + Words(front) + LengthWords(|message|) == BlockWords(blocks) + last;
    }
    ProcessBlock(InitialRegisters(), BlockWords(blocks), last);
  }

  /** When at least eight bytes of the block are left, the length goes into it. */
  lemma FinishShort(message: seq<Byte>)
    requires |message| % 64 < 56
    ensures Process(InitialRegisters(), MessageWords(message)) ==
      Process(Absorbed(message[..Full(|message|)]),
               Words(Ending(message, 55 - |message| % 64)) + LengthWords(|message|))
  {
    hide Process, Padded, Absorbed, MessageWords, Ending, Words, LengthWords;
    PaddedShort(message);
    LastBlock(message, message[..Full(|message|)], Ending(message, 55 - |message| % 64));
  }

  /** Otherwise the padding fills this block, and the length goes into another one. */
  lemma FinishLong(message: seq<Byte>)
    requires |message| % 64 >= 56
    ensures Process(InitialRegisters(), MessageWords(message)) ==
      Process(Process(Absorbed(message[..Full(|message|)]), Words(Ending(message, 63 - |message| % 64))),
               Words(Zeros(56)) + LengthWords(|message|))
  {
    hide Process, Padded, Absorbed, MessageWords, Ending, Words, LengthWords, Zeros;
    var m, front := message[..Full(|message|)], Ending(message, 63 - |message| % 64);
    PaddedLong(message);
    AbsorbBlock(m, front);
    LastBlock(message, m + front, Zeros(56));
  }
}
