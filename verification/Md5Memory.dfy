/** Words in the memory of a little- or big-endian host, as `byteReverse` of src/md5.cpp sees it. */
module Md5Memory {
  import opened Md5Spec

  /** Loading a word from memory: `*(uint32*)p`. */
  function Load(b0: Byte, b1: Byte, b2: Byte, b3: Byte, bigEndian: bool): Word {
    if bigEndian then Decode(b3, b2, b1, b0) else Decode(b0, b1, b2, b3)
  }

  /** Storing a word. */
  function Store(w: Word, bigEndian: bool): (s: seq<Byte>)
    ensures |s| == 4
  {
    var s := Encode(w);
    if bigEndian then [s[3], s[2], s[1], s[0]] else s
  }

  /** The word `byteReverse` computes from four bytes. */
  function Assemble(b0: Byte, b1: Byte, b2: Byte, b3: Byte): Word {
    ((((b3 as bv32) << 8) | (b2 as bv32)) << 16) | (((b1 as bv32) << 8) | (b0 as bv32))
  }

  /** A stretch of memory read as words of the host. */
  function NativeWords(s: seq<Byte>, bigEndian: bool): (x: seq<Word>)
    requires |s| % 4 == 0
    ensures |x| == |s| / 4
  {
    seq(|s| / 4, i requires 0 <= i < |s| / 4 => Load(s[4 * i], s[4 * i + 1], s[4 * i + 2], s[4 * i + 3], bigEndian))
  }

  /** What `byteReverse` leaves in memory: on a big-endian host the bytes of each word change order. */
  function ByteReversed(s: seq<Byte>, bigEndian: bool): (r: seq<Byte>)
    requires |s| % 4 == 0
    ensures |r| == |s|
  {
    seq(|s|, i requires 0 <= i < |s| => if bigEndian then s[4 * (i / 4) + (3 - i % 4)] else s[i])
  }

  lemma AssembleIsDecode(b0: Byte, b1: Byte, b2: Byte, b3: Byte)
    ensures Assemble(b0, b1, b2, b3) == Decode(b0, b1, b2, b3)
  {
  }

  lemma EncodeDecode(b0: Byte, b1: Byte, b2: Byte, b3: Byte)
    ensures Encode(Decode(b0, b1, b2, b3)) == [b0, b1, b2, b3]
  {
  }

  lemma DecodeEncode(w: Word)
    ensures var s := Encode(w); Decode(s[0], s[1], s[2], s[3]) == w
  {
  }

  lemma LoadStore(w: Word, bigEndian: bool)
    ensures var s := Store(w, bigEndian); Load(s[0], s[1], s[2], s[3], bigEndian) == w
  {
    hide Decode, Encode;
    DecodeEncode(w);
  }

  lemma ReversedAt(s: seq<Byte>, i: nat, j: nat)
    requires |s| % 4 == 0 && i < |s| / 4 && j < 4
    ensures ByteReversed(s, true)[4 * i + j] == s[4 * i + (3 - j)]
    ensures ByteReversed(s, false) == s
  {
    assert (4 * i + j) / 4 == i && (4 * i + j) % 4 == j;
  }

  lemma ReversedLoadsAt(s: seq<Byte>, bigEndian: bool, i: nat)
    requires |s| % 4 == 0 && i < |s| / 4
    ensures NativeWords(ByteReversed(s, bigEndian), bigEndian)[i] == Words(s)[i]
  {
    hide Decode, ByteReversed;
    ReversedAt(s, i, 0);
    ReversedAt(s, i, 1);
    ReversedAt(s, i, 2);
    ReversedAt(s, i, 3);
  }

  /** On either host, bytes run through `byteReverse` are loaded as their little-endian values. */
  lemma ReversedLoads(s: seq<Byte>, bigEndian: bool)
    requires |s| % 4 == 0
    ensures NativeWords(ByteReversed(s, bigEndian), bigEndian) == Words(s)
  {
    hide Decode;
    forall i | 0 <= i < |s| / 4
      ensures NativeWords(ByteReversed(s, bigEndian), bigEndian)[i] == Words(s)[i]
    {
      ReversedLoadsAt(s, bigEndian, i);
    }
  }

  /** The registers in memory, run through `byteReverse`, are their bytes low-order first on either host. */
  lemma ReversedStore(w: Word, bigEndian: bool)
    ensures ByteReversed(Store(w, bigEndian), bigEndian) == Encode(w)
  {
    hide Encode;
    var s := Store(w, bigEndian);
    assert ByteReversed(s, bigEndian)[0] == Encode(w)[0];
  }

  lemma NothingReversed(s: seq<Byte>, bigEndian: bool)
    ensures ByteReversed(s[..0], bigEndian) + s[0..] == s
  {
  }

  function WordReversed(s: seq<Byte>, p: nat, bigEndian: bool): seq<Byte>
    requires p + 4 <= |s|
  {
    s[..p] + Store(Assemble(s[p], s[p + 1], s[p + 2], s[p + 3]), bigEndian) + s[p + 4..]
  }

  /** `*(uint32*)(p + at) = w`. */
  method StoreWord(buf: array<Byte>, at: nat, w: Word, bigEndian: bool)
    requires at + 4 <= buf.Length
    modifies buf
    ensures buf[..] == old(buf[..])[..at] + Store(w, bigEndian) + old(buf[..])[at + 4..]
  {
    hide Encode, Store;
    var s := Store(w, bigEndian);
    buf[at], buf[at + 1], buf[at + 2], buf[at + 3] := s[0], s[1], s[2], s[3];
  }

  /** The body of the loop at `p`. */
  method ReverseWord(buf: array<Byte>, p: nat, bigEndian: bool)
    requires p + 4 <= buf.Length
    modifies buf
    ensures buf[..] == WordReversed(old(buf[..]), p, bigEndian)
  {
    hide Decode, Encode, Assemble, Store;
    var t := Assemble(buf[p], buf[p + 1], buf[p + 2], buf[p + 3]);
    StoreWord(buf, p, t, bigEndian);
  }

  lemma NotReversed(s: seq<Byte>)
    requires |s| % 4 == 0
    ensures ByteReversed(s, false) == s
  {
  }

  lemma ReversedFront(a: seq<Byte>, b: seq<Byte>, k: nat)
    requires |a| % 4 == 0 && |b| == 4 && k < |a|
    ensures ByteReversed(a + b, true)[k] == ByteReversed(a, true)[k]
  {
    hide ByteReversed;
    ReversedAt(a + b, k / 4, k % 4);
    ReversedAt(a, k / 4, k % 4);
    assert k == 4 * (k / 4) + k % 4;
  }

  lemma ReversedLast(a: seq<Byte>, b: seq<Byte>)
    requires |a| % 4 == 0 && |b| == 4
    ensures var r := ByteReversed(a + b, true);
            r[|a|] == b[3] && r[|a| + 1] == b[2] && r[|a| + 2] == b[1] && r[|a| + 3] == b[0]
  {
    hide ByteReversed;
    var i := |a| / 4;
    assert |a| == 4 * i;
    ReversedAt(a + b, i, 0);
    ReversedAt(a + b, i, 1);
    ReversedAt(a + b, i, 2);
    ReversedAt(a + b, i, 3);
  }

  lemma SplitOff(s: seq<Byte>, front: seq<Byte>, last: seq<Byte>)
    requires |s| == |front| + 4 && |last| == 4
    requires forall k :: 0 <= k < |front| ==> s[k] == front[k]
    requires forall k :: 0 <= k < 4 ==> s[|front| + k] == last[k]
    ensures s == front + last
  {
  }

  lemma ReversedAppend(a: seq<Byte>, b: seq<Byte>, bigEndian: bool)
    requires |a| % 4 == 0 && |b| == 4
    ensures ByteReversed(a + b, bigEndian) ==
      ByteReversed(a, bigEndian) + (if bigEndian then [b[3], b[2], b[1], b[0]] else [b[0], b[1], b[2], b[3]])
  {
    hide ByteReversed;
    if bigEndian {
      ReversedLast(a, b);
      forall k | 0 <= k < |a|
        ensures ByteReversed(a + b, true)[k] == ByteReversed(a, true)[k]
      {
        ReversedFront(a, b, k);
      }
      SplitOff(ByteReversed(a + b, true), ByteReversed(a, true), [b[3], b[2], b[1], b[0]]);
    } else {
      NotReversed(a + b);
      NotReversed(a);
      assert b == [b[0], b[1], b[2], b[3]];
    }
  }

  /** One word further, as a statement about the contents. */
  lemma ReverseOneMore(orig: seq<Byte>, cur: seq<Byte>, p: nat, bigEndian: bool)
    requires p % 4 == 0 && p + 4 <= |orig|
    requires cur == ByteReversed(orig[..p], bigEndian) + orig[p..]
    ensures WordReversed(cur, p, bigEndian) == ByteReversed(orig[..p + 4], bigEndian) + orig[p + 4..]
  {
    hide Decode, Encode, Assemble, ByteReversed;
    var b := orig[p..p + 4];
    assert cur[p] == b[0] && cur[p + 1] == b[1] && cur[p + 2] == b[2] && cur[p + 3] == b[3];
    AssembleIsDecode(b[0], b[1], b[2], b[3]);
    EncodeDecode(b[0], b[1], b[2], b[3]);
    var r := if bigEndian then [b[3], b[2], b[1], b[0]] else [b[0], b[1], b[2], b[3]];
    assert Store(Assemble(b[0], b[1], b[2], b[3]), bigEndian) == r;
    ReversedAppend(orig[..p], b, bigEndian);
    assert orig[..p + 4] == orig[..p] + b;
    assert cur[..p] == ByteReversed(orig[..p], bigEndian);
    assert cur[p + 4..] == orig[p + 4..];
  }

  /** `byteReverse`: a do-while loop over `longs` words, each read byte by byte and stored as the host stores it. */
  method ByteReverse(buf: array<Byte>, longs: nat, bigEndian: bool)
    requires 0 < longs && 4 * longs <= buf.Length
    modifies buf
    ensures buf[..] == ByteReversed(old(buf[..4 * longs]), bigEndian) + old(buf[4 * longs..])
  {
    hide Decode, Encode, Assemble, Store, ByteReversed, WordReversed;
    ghost var orig := buf[..];
    NothingReversed(orig, bigEndian);
    var p, left := 0, longs;
    while true
      invariant 0 < left <= longs && p == 4 * (longs - left)
      invariant buf[..] == ByteReversed(orig[..p], bigEndian) + orig[p..]
      decreases left
    {
      ReverseOneMore(orig, buf[..], p, bigEndian);
      ReverseWord(buf, p, bigEndian);
      p := p + 4;
      left := left - 1;
      if left == 0 { break; }
    }
    assert orig[..p] == old(buf[..4 * longs]) && orig[p..] == old(buf[4 * longs..]);
  }
}
