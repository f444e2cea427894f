/** The md5 object of src/md5.cpp: a 64-byte buffer, four registers and a two-word bit counter. */
module Md5 {
  import opened Md5Spec
  import opened Md5Transform
  import opened Md5Memory
  import opened Md5Streaming

  /** `memcpy(dst + at, src, |src|)`. */
  method MemCpy(dst: array<Byte>, at: nat, src: seq<Byte>)
    requires at + |src| <= dst.Length
    modifies dst
    ensures dst[..] == old(dst[..])[..at] + src + old(dst[..])[at + |src|..]
  {
    forall i | 0 <= i < |src| {
      dst[at + i] := src[i];
    }
  }

  /** `memset(dst + at, 0, n)`. */
  method MemSet(dst: array<Byte>, at: nat, n: nat)
    requires at + n <= dst.Length
    modifies dst
    ensures dst[..] == old(dst[..])[..at] + Zeros(n) + old(dst[..])[at + n..]
  {
    forall i | at <= i < at + n {
      dst[i] := 0;
    }
  }

  /** The message a list of chunks makes up. */
  function Joined(chunks: seq<seq<Byte>>): seq<Byte> {
    if chunks == [] then [] else Joined(chunks[..|chunks| - 1]) + chunks[|chunks| - 1]
  }

  /** What is left after the whole blocks. */
  lemma Rest(before: seq<Byte>, data: seq<Byte>, p: nat)
    requires p <= |data| < p + 64 && (|before| + p) % 64 == 0
    ensures Full(|before + data|) == |before| + p && |before + data| % 64 == |data| - p
    ensures (before + data)[|before| + p..] == data[p..]
  {
    var q := (|before| + p) / 64;
    assert |before + data| == 64 * q + (|data| - p);
  }

  /** The next 64 bytes of a message. */
  lemma NextBlock(total: seq<Byte>, k: nat)
    requires k % 64 == 0 && k + 64 <= |total|
    ensures Absorbed(total[..k + 64]) == Process(Absorbed(total[..k]), Words(total[k..k + 64]))
  {
    hide Words, Absorbed, Process;
    var m, block := total[..k], total[k..k + 64];
    assert total[..k + 64] == m + block;
    AbsorbBlock(m, block);
  }

  /** Data that fills up the buffer completes the block begun before. */
  lemma Filled(before: seq<Byte>, data: seq<Byte>)
    requires |before| % 64 + |data| >= 64
    ensures var k, t := Full(|before|), |before| % 64;
            k + 64 <= |before + data| && (before + data)[k..k + 64] == before[k..] + data[..64 - t]
  {
  }

  /** Data that does not stays in the buffer. */
  lemma Partial(before: seq<Byte>, data: seq<Byte>)
    requires |before| % 64 + |data| < 64
    ensures Full(|before + data|) == Full(|before|) && |before + data| % 64 == |before| % 64 + |data|
    ensures (before + data)[Full(|before|)..] == before[Full(|before|)..] + data
  {
    var q := |before| / 64;
    assert |before + data| == 64 * q + (|before| % 64 + |data|);
  }

  /** Two words stored at the end of a block. */
  lemma LastTwo(front: seq<Byte>, rest: seq<Byte>, lo: seq<Byte>, hi: seq<Byte>)
    requires |front| == 56 && |rest| == 8 && |lo| == 4 && |hi| == 4
    ensures var s := front + rest;
            var s1 := s[..56] + lo + s[60..];
            s1[..60] + hi + s1[64..] == front + lo + hi
  {
  }

  lemma NativeConcat(a: seq<Byte>, b: seq<Byte>, bigEndian: bool)
    requires |a| % 4 == 0 && |b| == 4
    ensures NativeWords(a + b, bigEndian) == NativeWords(a, bigEndian) + NativeWords(b, bigEndian)
  {
    hide Load;
    var q := |a| / 4;
    assert |a| == 4 * q && |a + b| == 4 * (q + 1);
    var all := a + b;
    forall i | 0 <= i < q + 1
      ensures NativeWords(all, bigEndian)[i] == (NativeWords(a, bigEndian) + NativeWords(b, bigEndian))[i]
    {
      if i < q {
        assert all[4 * i] == a[4 * i] && all[4 * i + 1] == a[4 * i + 1];
        assert all[4 * i + 2] == a[4 * i + 2] && all[4 * i + 3] == a[4 * i + 3];
      } else {
        assert all[4 * i] == b[0] && all[4 * i + 1] == b[1] && all[4 * i + 2] == b[2] && all[4 * i + 3] == b[3];
      }
    }
  }

  /** The block with the length in it, as the host loads it. */
  lemma LengthLoads(front: seq<Byte>, lo: Word, hi: Word, bigEndian: bool)
    requires |front| == 56
    ensures NativeWords(ByteReversed(front, bigEndian) + Store(lo, bigEndian) + Store(hi, bigEndian), bigEndian)
      == Words(front) + [lo, hi]
  {
    hide Words, ByteReversed, Store, Load;
    var f, l, h := ByteReversed(front, bigEndian), Store(lo, bigEndian), Store(hi, bigEndian);
    ReversedLoads(front, bigEndian);
    NativeConcat(f + l, h, bigEndian);
    NativeConcat(f, l, bigEndian);
    LoadStore(lo, bigEndian);
    LoadStore(hi, bigEndian);
    assert NativeWords(l, bigEndian) == [lo];
    assert NativeWords(h, bigEndian) == [hi];
  }

  lemma ReversedNothing(bigEndian: bool)
    ensures ByteReversed([], bigEndian) == []
  {
  }

  lemma ReversedConcat(a: seq<Byte>, b: seq<Byte>, bigEndian: bool)
    requires |a| % 4 == 0 && |b| == 4
    ensures ByteReversed(a + b, bigEndian) == ByteReversed(a, bigEndian) + ByteReversed(b, bigEndian)
  {
    hide ByteReversed;
    ReversedAppend(a, b, bigEndian);
    ReversedAppend([], b, bigEndian);
    ReversedNothing(bigEndian);
    assert [] + b == b;
  }

  /** The sixteen bytes of the digest are the same on either host. */
  lemma WholeCopy(before: seq<Byte>, src: seq<Byte>)
    requires |before| == |src|
    ensures before[..0] + src + before[|src|..] == src
  {
  }

  lemma RegistersReversed(q: Registers, bigEndian: bool)
    ensures ByteReversed(
              Store(q.a, bigEndian) + Store(q.b, bigEndian) + Store(q.c, bigEndian) + Store(q.d, bigEndian), bigEndian)
      == Output(q)
  {
    hide Store, Encode, ByteReversed;
    var a, b, c, d := Store(q.a, bigEndian), Store(q.b, bigEndian), Store(q.c, bigEndian), Store(q.d, bigEndian);
    ReversedConcat(a + b + c, d, bigEndian);
    ReversedConcat(a + b, c, bigEndian);
    ReversedConcat(a, b, bigEndian);
    ReversedStore(q.a, bigEndian);
    ReversedStore(q.b, bigEndian);
    ReversedStore(q.c, bigEndian);
    ReversedStore(q.d, bigEndian);
  }

  class Hash {
    const bigEndian: bool              // the host's byte order
    const buf: array<Word>
    const inp: array<Byte>
    const digest: array<Byte>
    var low: nat                       // bits[0]
    var high: nat                      // bits[1]
    ghost var message: seq<Byte>       // everything given to `update` since `init`

    ghost predicate Shape()
      reads this
    {
      buf.Length == 4 && inp.Length == 64 && digest.Length == 16 && inp != digest &&
      low < 0x1_0000_0000 && high < 0x1_0000_0000
    }

    /** `buf` holds the compression of the whole blocks so far, `inp` the rest, the counter the length in bits. */
    ghost predicate Valid()
      reads this, buf, inp
    {
      && Shape()
      && Holds(message)
      && Counts(low, high, |message|)
    }

    ghost predicate Holds(m: seq<Byte>)
      requires Shape()
      reads this, buf, inp
    {
      && RegistersIn(buf) == Absorbed(m[..Full(|m|)])
      && inp[..|m| % 64] == m[Full(|m|)..]
    }

    constructor (bigEndian: bool)
      ensures Valid() && message == [] && fresh(buf) && fresh(inp) && fresh(digest)
      ensures this.bigEndian == bigEndian
    {
      this.bigEndian := bigEndian;
      buf := new Word[4];
      inp := new Byte[64];
      digest := new Byte[16];
      low, high := 0, 0;
      message := [];
      new;
      Init();
    }

    method Init()
      requires Shape()
      modifies this, buf
      ensures Valid() && message == []
    {
      buf[0] := 0x67452301;
      buf[1] := 0xefcdab89;
      buf[2] := 0x98badcfe;
      buf[3] := 0x10325476;
      low, high := 0, 0;
      message := [];
      AbsorbedNothing();
      assert message[..Full(0)] == [];
    }

    /** `byteReverse(ctx->in, 16); transform(ctx->buf, (uint32*)ctx->in);` */
    method Absorb()
      requires Shape()
      modifies buf, inp
      ensures RegistersIn(buf) == Process(old(RegistersIn(buf)), Words(old(inp[..])))
    {
      hide Words, Process, NativeWords, ByteReversed;
      ghost var bytes := inp[..];
      ByteReverse(inp, 16, bigEndian);
      assert old(inp[..64]) == bytes && old(inp[64..]) == [];
      assert inp[..] == ByteReversed(bytes, bigEndian);
      ReversedLoads(bytes, bigEndian);
      Transform(buf, NativeWords(inp[..], bigEndian));
    }

    /** The bit count of `update`; the result is how many bytes are already in the buffer. */
    method Count(len: nat, ghost n: nat) returns (t: nat)
      requires Shape() && len < 0x1_0000_0000 && Counts(low, high, n)
      modifies this`low, this`high
      ensures Shape() && Counts(low, high, n + len)
      ensures t == n % 64
    {
      CounterStep(low, high, n, len);
      CounterPosition(low, high, n);
      t := low;
      low := (t + len * 8 % 0x1_0000_0000) % 0x1_0000_0000;
      if low < t {
        high := (high + 1) % 0x1_0000_0000;
      }
      high := (high + len / 0x2000_0000) % 0x1_0000_0000;
      t := t / 8 % 64;
    }

    /** `memcpy(p, buf, ...)` up to the end of the buffer, then the compression: the block at `k` of the message
        has been taken in. */
    method FillAndAbsorb(at: nat, src: seq<Byte>, ghost total: seq<Byte>, ghost k: nat)
      requires Shape() && at + |src| == 64 && k % 64 == 0 && k + 64 <= |total|
      requires inp[..at] + src == total[k..k + 64]
      requires RegistersIn(buf) == Absorbed(total[..k])
      modifies buf, inp
      ensures RegistersIn(buf) == Absorbed(total[..k + 64])
    {
      hide Words, Absorbed;
      MemCpy(inp, at, src);
      assert inp[..] == total[k..k + 64];
      Absorb();
      NextBlock(total, k);
    }

    /** The loop over 64-byte chunks, from position `p` of the data on. */
    method Chunks(data: seq<Byte>, p0: nat, ghost before: seq<Byte>) returns (p: nat)
      requires Shape() && p0 <= |data| && (|before| + p0) % 64 == 0
      requires RegistersIn(buf) == Absorbed((before + data)[..|before| + p0])
      modifies buf, inp
      ensures p <= |data| < p + 64 && (|before| + p) % 64 == 0
      ensures RegistersIn(buf) == Absorbed((before + data)[..|before| + p])
    {
      hide Words, Absorbed, Process;
      ghost var total := before + data;
      var len := |data| - p0;
      p := p0;
      while len >= 64
        invariant 0 <= len && p + len == |data| && (|before| + p) % 64 == 0
        invariant RegistersIn(buf) == Absorbed(total[..|before| + p])
      {
        assert inp[..0] + data[p..p + 64] == total[|before| + p..|before| + p + 64];
        FillAndAbsorb(0, data[p..p + 64], total, |before| + p);
        p := p + 64;
        len := len - 64;
      }
    }

    /** Less than a block remains: it goes to the front of the buffer. */
    method KeepRest(data: seq<Byte>, p: nat, ghost before: seq<Byte>)
      requires Shape() && p <= |data| < p + 64 && (|before| + p) % 64 == 0
      requires RegistersIn(buf) == Absorbed((before + data)[..|before| + p])
      modifies inp
      ensures Shape() && Holds(before + data)
    {
      hide Words, Absorbed, Process;
      Rest(before, data, p);
      MemCpy(inp, 0, data[p..]);
      assert inp[..|data| - p] == data[p..];
    }

    /** Data that does not fill the buffer goes behind what is in it. */
    method KeepPartial(data: seq<Byte>, t: nat, ghost before: seq<Byte>)
      requires Shape() && Holds(before) && t == |before| % 64 && t + |data| < 64
      modifies inp
      ensures Shape() && Holds(before + data)
    {
      hide Words, Absorbed, Process;
      Partial(before, data);
      MemCpy(inp, t, data);
      assert inp[..t + |data|] == before[Full(|before|)..] + data;
      assert (before + data)[..Full(|before|)] == before[..Full(|before|)];
    }

    /** The leading odd-sized chunk: what is missing from the block begun before. */
    method Lead(data: seq<Byte>, t: nat, ghost before: seq<Byte>) returns (p: nat)
      requires Shape() && Holds(before) && t == |before| % 64 && (t == 0 || t + |data| >= 64)
      modifies buf, inp
      ensures p <= |data| && (|before| + p) % 64 == 0
      ensures RegistersIn(buf) == Absorbed((before + data)[..|before| + p])
    {
      hide Words, Absorbed, Process;
      ghost var total, k := before + data, Full(|before|);
      assert total[..k] == before[..k];
      if t != 0 {
        p := 64 - t;
        Filled(before, data);
        FillAndAbsorb(t, data[..p], total, k);
        assert k + 64 == |before| + p;
      } else {
        p := 0;
        assert k == |before|;
      }
    }

    method Update(data: seq<Byte>)
      requires Valid() && |data| < 0x1_0000_0000
      modifies this`low, this`high, this`message, buf, inp
      ensures Valid() && message == old(message) + data
    {
      hide Words, Absorbed, Process, Counts, Full;
      ghost var before := message;
      var t := Count(|data|, |before|);
      message := before + data;
      if t != 0 && |data| < 64 - t {
        KeepPartial(data, t, before);
        return;
      }
      var p := Lead(data, t, before);
      p := Chunks(data, p, before);
      KeepRest(data, p, before);
    }

    /** `byteReverse(ctx->in, 14)`, the two length words stored as the host stores them, `transform`. */
    method AbsorbLength(lo: Word, hi: Word)
      requires Shape()
      modifies buf, inp
      ensures RegistersIn(buf) == Process(old(RegistersIn(buf)), Words(old(inp[..56])) + [lo, hi])
    {
      hide Words, Process, NativeWords, ByteReversed, Store;
      ghost var front := inp[..56];
      ghost var rest := inp[56..];
      ByteReverse(inp, 14, bigEndian);
      StoreWord(inp, 56, lo, bigEndian);
      StoreWord(inp, 60, hi, bigEndian);
      LastTwo(ByteReversed(front, bigEndian), rest, Store(lo, bigEndian), Store(hi, bigEndian));
      assert inp[..] == ByteReversed(front, bigEndian) + Store(lo, bigEndian) + Store(hi, bigEndian);
      LengthLoads(front, lo, hi, bigEndian);
      Transform(buf, NativeWords(inp[..], bigEndian));
    }

    /** `byteReverse((unsigned char*)ctx->buf, 4); memcpy(_hash, ctx->buf, 16);`, on the bytes of the registers. */
    method WriteDigest()
      requires Shape()
      modifies digest
      ensures digest[..] == Output(RegistersIn(buf))
    {
      hide Store, ByteReversed, Encode, Output;
      ghost var q := RegistersIn(buf);
      var memory := new Byte[16];
      var words := Store(buf[0], bigEndian) + Store(buf[1], bigEndian) +
                   Store(buf[2], bigEndian) + Store(buf[3], bigEndian);
      WholeCopy(memory[..], words);
      MemCpy(memory, 0, words);
      ghost var bytes := memory[..];
      ByteReverse(memory, 4, bigEndian);
      assert bytes[..16] == bytes && bytes[16..] == [];
      RegistersReversed(q, bigEndian);
      assert memory[..] == Output(q);
      WholeCopy(digest[..], memory[..]);
      MemCpy(digest, 0, memory[..]);
    }

    /** Padding: `0x80` behind the message and zeros up to `size`. */
    method Pad(size: nat)
      requires Valid() && |message| % 64 < size <= 64
      modifies inp
      ensures inp[..size] == Ending(message, size - 1 - |message| % 64)
    {
      hide Words, Absorbed, Process, Zeros;
      ghost var t := |message| % 64;
      CounterPosition(low, high, |message|);
      var count := low / 8 % 64;
      inp[count] := 0x80;
      assert inp[..t] == Tail(message);
      MemSet(inp, count + 1, size - 1 - count);
      assert inp[..size] == Tail(message) + [0x80 as Byte] + Zeros(size - 1 - t);
    }

    /** The padding and the last one or two blocks. */
    method Finish()
      requires Valid()
      modifies buf, inp
      ensures RegistersIn(buf) == Process(InitialRegisters(), MessageWords(message))
    {
      hide Words, Absorbed, Process, Ending, MessageWords, LengthWords, Zeros, Counts, Full, InitialRegisters, ToWord;
      CounterPosition(low, high, |message|);
      CounterWords(low, high, |message|);
      var count := 64 - 1 - low / 8 % 64;
      if count < 8 {
        Pad(64);
        assert inp[..64] == inp[..];
        Absorb();
        MemSet(inp, 0, 56);
        assert inp[..56] == Zeros(56);
        FinishLong(message);
      } else {
        Pad(56);
        FinishShort(message);
      }
      AbsorbLength(ToWord(low), ToWord(high));
    }

    /** `final`: padding, length, the last one or two blocks, and the digest; then the context is wiped. */
    method Final()
      requires Valid()
      modifies this`low, this`high, buf, inp, digest
      ensures digest[..] == Digest(message)
      ensures Shape() && low == high == 0
      ensures (forall i :: 0 <= i < 4 ==> buf[i] == 0) && (forall i :: 0 <= i < 64 ==> inp[i] == 0)
    {
      hide Process, MessageWords, Output, Counts, Holds, InitialRegisters;
      Finish();
      WriteDigest();
      low, high := 0, 0;
      forall i | 0 <= i < 4 { buf[i] := 0; }
      forall i | 0 <= i < 64 { inp[i] := 0; }
    }

    /** A whole run: `init`, any number of calls of `update` with chunks of any lengths the parameter can hold, and
        `final`. Whatever the host's byte order, the digest is that of all the bytes. */
    method HashChunks(chunks: seq<seq<Byte>>)
      requires Shape()
      requires forall i :: 0 <= i < |chunks| ==> |chunks[i]| < 0x1_0000_0000
      modifies this, buf, inp, digest
      ensures digest[..] == Digest(Joined(chunks))
    {
      hide Digest, Valid, Shape, Holds, Counts;
      Init();
      for i := 0 to |chunks|
        invariant Valid() && message == Joined(chunks[..i])
      {
        Update(chunks[i]);
        assert chunks[..i + 1][..i] == chunks[..i];
      }
      assert chunks[..|chunks|] == chunks;
      Final();
    }

    /** The body of the constructor that reads a file, from `init` on: `parts` is what the calls of `fread` return. */
    method HashFile(parts: seq<seq<Byte>>)
      requires Shape()
      requires forall i :: 0 <= i < |parts| ==> 0 < |parts[i]| <= 10240
      modifies this, buf, inp, digest
      ensures digest[..] == Digest(Joined(parts))
    {
      hide Digest, Shape;
      HashChunks(parts);
    }
  }
}
