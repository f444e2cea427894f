/** `url_encode`, `url_decode` and `hex2int` of src/util.cpp. Characters stand for bytes. */
module UrlCodec {
  import opened Options

  const NUL: char := 0 as char

  /** What a `const char*` can hold: bytes other than zero. */
  predicate IsCString(s: string) {
    forall i :: 0 <= i < |s| ==> 0 < s[i] as int < 256
  }

  /** A C string ends at its first zero byte. */
  function UpToNul(s: string): (r: string)
    ensures NUL !in r && r <= s
    ensures NUL !in s ==> r == s
  {
    if s == "" || s[0] == NUL then "" else [s[0]] + UpToNul(s[1..])
  }

  // ---- Hexadecimal digits ----

  /** The value of a hexadecimal digit of either case, 255 for any other byte. */
  function HexValue(c: char): (v: nat)
    ensures v <= 15 || v == 255
  {
    if '0' <= c <= '9' then c as int - '0' as int
    else if 'a' <= c <= 'f' then c as int - 'a' as int + 10
    else if 'A' <= c <= 'F' then c as int - 'A' as int + 10
    else 255
  }

  /** `x | 0x20` on a byte. */
  function SetBit5(x: nat): nat {
    if x / 32 % 2 == 1 then x else x + 32
  }

  /** The byte before `c`, cyclically. */
  function BelowByte(c: char): nat {
    if c as int == 0 then 255 else c as int - 1
  }

  /** Setting the bit after subtracting one maps both cases of a letter to one range, and nothing else into it. */
  lemma LetterTrick(c: char)
    requires c as int < 256 && !('0' <= c <= '9')
    ensures var hex := (SetBit5(BelowByte(c)) - 'a' as int + 11) % 256;
            (if hex > 15 then 0xFF else hex) == HexValue(c)
  {
  }

  /** The bit trick accepts exactly the hexadecimal digits; every intermediate value is cut to a byte. */
  method Hex2Int(c: char) returns (hex: nat)
    requires c as int < 256
    ensures hex == HexValue(c)
  {
    hide SetBit5;
    hex := (c as int - '0' as int) % 256;
    if hex > 9 {
      LetterTrick(c);
      assert (hex + '0' as int - 1) % 256 == BelowByte(c);
      hex := SetBit5((hex + '0' as int - 1) % 256);
      hex := (hex - 'a' as int + 11) % 256;
    }
    if hex > 15 {
      hex := 0xFF;
    }
  }

  // ---- Decoding ----

  /** Percent-decoding (section 2.1 of RFC 3986); `+` is a space in a query. A `%` that two digits do not follow
      stands for itself. */
  function Decode(s: string, isQuery: bool): string
    decreases |s|
  {
    if s == "" then ""
    else if isQuery && s[0] == '+' then " " + Decode(s[1..], isQuery)
    else if s[0] == '%' && |s| >= 3 && HexValue(s[1]) != 255 && HexValue(s[2]) != 255 then
      [(16 * HexValue(s[1]) + HexValue(s[2])) as char] + Decode(s[3..], isQuery)
    else [s[0]] + Decode(s[1..], isQuery)
  }

  /** The character at the head of a non-empty input decodes to, and how much of the input it takes. */
  function DecodeHead(s: string, isQuery: bool): (r: (char, nat))
    requires s != ""
    ensures 0 < r.1 <= |s|
  {
    if isQuery && s[0] == '+' then (' ', 1)
    else if s[0] == '%' && |s| >= 3 && HexValue(s[1]) != 255 && HexValue(s[2]) != 255 then
      ((16 * HexValue(s[1]) + HexValue(s[2])) as char, 3)
    else (s[0], 1)
  }

  lemma DecodeStep(s: string, isQuery: bool)
    requires s != ""
    ensures Decode(s, isQuery) == [DecodeHead(s, isQuery).0] + Decode(s[DecodeHead(s, isQuery).1..], isQuery)
  {
  }

  /** One round of the loop: reads at `src`, writes at `dst`; returns how far `src` moves. */
  method DecodeOne(str: array<char>, src: nat, dst: nat, isQuery: bool, ghost rest: string) returns (k: nat)
    requires dst <= src <= str.Length && rest != "" && IsCString(rest) && str[src..] == rest + [NUL]
    modifies str
    ensures str[..] == old(str[..])[dst := DecodeHead(rest, isQuery).0]
    ensures k == DecodeHead(rest, isQuery).1
  {
    k := 1;
    assert str.Length == src + |rest| + 1;
    assert str[src] == str[src..][0] && str[src + 1] == str[src..][1];
    assert |rest| >= 2 ==> str[src + 2] == str[src..][2];
    if isQuery && str[src] == '+' {
      str[dst] := ' ';
    } else if str[src] == '%' {
      str[dst] := '%';
      var high := Hex2Int(str[src + 1]);
      if high != 0xFF {
        var low := Hex2Int(str[src + 2]);
        if low != 0xFF {
          high := 16 * high + low;
          str[dst] := high as char;
          k := 3;
        }
      }
    } else {
      str[dst] := str[src];
    }
  }

  /** The buffer in the middle of decoding `s`: decoded text up to the write cursor, and from the read cursor on what
      is still to be read, with its terminator. */
  ghost predicate Decoding(str: seq<char>, s: string, src: nat, dst: nat, isQuery: bool) {
    && dst <= src <= |s| && |str| == |s| + 1
    && str[src..] == s[src..] + [NUL]
    && str[..dst] + Decode(s[src..], isQuery) == Decode(s, isQuery)
  }

  lemma AtTerminator(str: seq<char>, s: string, src: nat, dst: nat, isQuery: bool)
    requires Decoding(str, s, src, dst, isQuery) && IsCString(s)
    ensures str[src] == NUL <==> src == |s|
    ensures src < |s| ==> s[src..] != "" && IsCString(s[src..])
  {
    hide Decode;
    assert str[src] == str[src..][0];
  }

  lemma DecodingStep(str: seq<char>, s: string, src: nat, dst: nat, isQuery: bool)
    requires Decoding(str, s, src, dst, isQuery) && src < |s|
    ensures var (c, k) := DecodeHead(s[src..], isQuery);
            Decoding(str[dst := c], s, src + k, dst + 1, isQuery)
  {
    hide Decode, DecodeHead;
    var rest := s[src..];
    var (c, k) := DecodeHead(rest, isQuery);
    DecodeStep(rest, isQuery);
    assert rest[k..] == s[src + k..];
    var next := str[dst := c];
    assert next[src + k..] == str[src..][k..] == rest[k..] + [NUL];
    assert next[..dst + 1] == str[..dst] + [c];
    assert next[..dst + 1] + Decode(s[src + k..], isQuery) == str[..dst] + ([c] + Decode(rest[k..], isQuery));
  }

  lemma {:induction false} UpToNulOfBuffer(s: string, n: nat)
    requires n < |s| && s[n] == NUL
    ensures UpToNul(s) == UpToNul(s[..n])
    decreases n
  {
    if n == 0 || s[0] == NUL {
    } else {
      UpToNulOfBuffer(s[1..], n - 1);
      assert s[1..][..n - 1] == s[..n][1..];
    }
  }

  lemma DecodingEnds(str: seq<char>, s: string, dst: nat, isQuery: bool)
    requires Decoding(str, s, |s|, dst, isQuery)
    ensures UpToNul(str[dst := NUL]) == UpToNul(Decode(s, isQuery))
  {
    assert Decode("", isQuery) == "";
    assert str[..dst] + "" == str[..dst];
    UpToNulOfBuffer(str[dst := NUL], dst);
    assert str[dst := NUL][..dst] == str[..dst];
  }

  /** `url_decode`: read and write cursors in one copy of the string. The write cursor never passes the read cursor,
      no byte behind the terminator is read, and what comes back is the decoding up to its first zero byte. */
  method UrlDecode(url: Option<string>, isQuery: bool) returns (decoded: string)
    requires url.Some? ==> IsCString(url.value)
    ensures decoded == if url.None? then "" else UpToNul(Decode(url.value, isQuery))
  {
    hide Decode, DecodeHead, UpToNul;
    if url.None? {
      return "";
    }
    var s := url.value;
    var str := new char[|s| + 1](i requires 0 <= i <= |s| => if i < |s| then s[i] else NUL);
    var src, dst := 0, 0;
    assert str[..] == s + [NUL] && s[0..] == s;
    assert str[..0] + Decode(s, isQuery) == Decode(s, isQuery);
    while str[src] != NUL
      invariant Decoding(str[..], s, src, dst, isQuery)
      decreases |s| - src
    {
      AtTerminator(str[..], s, src, dst, isQuery);
      DecodingStep(str[..], s, src, dst, isQuery);
      assert str[src..] == str[..][src..];
      var k := DecodeOne(str, src, dst, isQuery, s[src..]);
      dst := dst + 1;
      src := src + k;
    }
    AtTerminator(str[..], s, src, dst, isQuery);
    DecodingEnds(str[..], s, dst, isQuery);
    str[dst] := NUL;
    decoded := UpToNul(str[..]);
  }

  // ---- Encoding ----

  /** `isalnum` in the C locale, and the three marks left alone. */
  predicate Plain(c: char) {
    'a' <= c <= 'z' || 'A' <= c <= 'Z' || '0' <= c <= '9' || c == '.' || c == '_' || c == '-'
  }

  function UpperDigit(v: nat): char
    requires v < 16
  {
    if v < 10 then (v + '0' as int) as char else (v - 10 + 'A' as int) as char
  }

  function UpperHex(v: nat): (s: string)
    ensures |s| >= 1 && (v >= 16 ==> |s| >= 2)
  {
    if v < 16 then [UpperDigit(v)] else UpperHex(v / 16) + [UpperDigit(v % 16)]
  }

  /** `%2X` of an unsigned int: at least two characters, padded with a space. */
  function HexField(v: nat): (s: string)
    ensures |s| >= 2
  {
    if v < 16 then " " + UpperHex(v) else UpperHex(v)
  }

  /** A `char` passed to `sprintf`: widened to an int, with its sign where `char` is signed. */
  function Widened(c: char, charSigned: bool): nat
    requires c as int < 256
  {
    if charSigned && c as int >= 128 then 0xFFFF_FF00 + c as int else c as int
  }

  /** The output cursor moves three places over what `sprintf` wrote, however much that was. */
  function EncodeChar(c: char, charSigned: bool): (s: string)
    requires c as int < 256
    ensures 1 <= |s| <= 3
  {
    if Plain(c) then [c]
    else if c == ' ' then "+"
    else "%" + HexField(Widened(c, charSigned))[..2]
  }

  function Encode(s: string, charSigned: bool): (e: string)
    requires IsCString(s)
    ensures |e| <= 3 * |s| && (e == "" <==> s == "")
  {
    if s == "" then "" else EncodeChar(s[0], charSigned) + Encode(s[1..], charSigned)
  }

  lemma {:induction false} EncodeSnoc(s: string, c: char, charSigned: bool)
    requires IsCString(s + [c])
    ensures IsCString(s) && 0 < c as int < 256
    ensures Encode(s + [c], charSigned) == Encode(s, charSigned) + EncodeChar(c, charSigned)
    decreases |s|
  {
    hide EncodeChar;
    assert (s + [c])[|s|] == c;
    assert forall i :: 0 <= i < |s| ==> (s + [c])[i] == s[i];
    if s == "" {
      assert s + [c] == [c] && [c][1..] == "";
    } else {
      assert (s + [c])[1..] == s[1..] + [c];
      EncodeSnoc(s[1..], c, charSigned);
    }
  }

  function Power16(k: nat): nat {
    if k == 0 then 1 else 16 * Power16(k - 1)
  }

  lemma {:induction false} HexLength(v: nat, digits: nat)
    requires 0 < digits <= 8 && v < Power16(digits)
    ensures |UpperHex(v)| <= digits
    decreases digits
  {
    if v < 16 {
    } else {
      HexLength(v / 16, digits - 1);
    }
  }

  lemma FieldLength(c: char, charSigned: bool)
    requires c as int < 256
    ensures |HexField(Widened(c, charSigned))| <= 8
  {
    HexLength(Widened(c, charSigned), 8);
  }

  /** A character that is encoded as one: all others take three places. */
  predicate Short(c: char) {
    Plain(c) || c == ' '
  }

  function Shorts(s: string): nat {
    if s == "" then 0 else (if Short(s[0]) then 1 else 0) + Shorts(s[1..])
  }

  lemma {:induction false} EncodedLength(s: string, charSigned: bool)
    requires IsCString(s)
    ensures |Encode(s, charSigned)| + 2 * Shorts(s) == 3 * |s|
    decreases |s|
  {
    if s == "" {
      assert |Encode(s, charSigned)| == 0;
    } else {
      EncodedLength(s[1..], charSigned);
    }
  }

  lemma {:induction false} ShortsSplit(s: string, i: nat)
    requires i <= |s|
    ensures Shorts(s) == Shorts(s[..i]) + Shorts(s[i..])
    ensures Shorts(s[i..]) <= |s| - i
    decreases |s|
  {
    if s == "" {
      assert s[..i] == s[i..] == "";
    } else if i == 0 {
      assert s[..0] == "" && s[0..] == s;
      ShortsSplit(s[1..], 0);
      assert s[1..][0..] == s[1..];
    } else {
      ShortsSplit(s[1..], i - 1);
      assert s[..i][1..] == s[1..][..i - 1] && s[i..] == s[1..][i - 1..];
    }
  }

  /** How many bytes one round writes: `sprintf` writes the whole number and a terminator. */
  function Written(c: char, charSigned: bool): nat
    requires c as int < 256
  {
    if Short(c) then 1 else |HexField(Widened(c, charSigned))| + 2
  }

  lemma {:induction false} PowerIsPositive(k: nat)
    ensures Power16(k) >= 1
  {
    if k == 0 {
    } else {
      PowerIsPositive(k - 1);
    }
  }

  lemma {:induction false} LongHex(v: nat, digits: nat)
    requires digits >= 1 && v >= Power16(digits - 1)
    ensures |UpperHex(v)| >= digits
    decreases digits
  {
    if digits == 1 {
    } else {
      assert Power16(digits - 1) == 16 * Power16(digits - 2);
      PowerIsPositive(digits - 2);
      LongHex(v / 16, digits - 1);
    }
  }

  lemma WrittenIs(c: char, charSigned: bool)
    requires c as int < 256
    ensures Written(c, charSigned) == if Short(c) then 1 else if charSigned && c as int >= 128 then 10 else 4
  {
    var v := Widened(c, charSigned);
    if v >= 256 {
      FieldLength(c, charSigned);
      assert Power16(7) == 0x1000_0000;
      LongHex(v, 8);
    } else if v >= 16 {
      assert UpperHex(v / 16) == [UpperDigit(v / 16)];
    }
  }

  /** Every byte written lies in the buffer of three bytes for each character, the terminator included. */
  ghost predicate Fits(url: string, charSigned: bool)
    requires IsCString(url)
  {
    && (forall i :: 0 <= i < |url| ==>
        IsCString(url[..i]) && |Encode(url[..i], charSigned)| + Written(url[i], charSigned) <= 3 * |url|)
    && |Encode(url, charSigned)| < 3 * |url|
  }

  lemma RoundFits(url: string, i: nat, charSigned: bool)
    requires IsCString(url) && i < |url| && IsCString(url[..i]) && Shorts(url) > 0
    ensures |Encode(url[..i], charSigned)| + Written(url[i], charSigned) <= 3 * |url| <==>
      (charSigned && url[i] as int >= 128 ==> 3 * (|url| - i) + 2 * Shorts(url[..i]) >= 10)
  {
    hide Encode, Written;
    EncodedLength(url[..i], charSigned);
    WrittenIs(url[i], charSigned);
    ShortsSplit(url, i);
    if i == |url| - 1 {
      assert url[i..] == [url[i]] && url[i..][1..] == "";
    }
  }

  /** The rounds and the terminator stay in the buffer exactly when some character takes one place only, and, where
      `char` is signed, each byte from 0x80 on has the ten bytes that `sprintf` needs. */
  lemma FitsExactly(url: string, charSigned: bool)
    requires IsCString(url)
    ensures Fits(url, charSigned) <==>
      && Shorts(url) > 0
      && (charSigned ==> forall i :: 0 <= i < |url| && url[i] as int >= 128 ==>
          3 * (|url| - i) + 2 * Shorts(url[..i]) >= 10)
  {
    hide Encode, Shorts, Written, Plain;
    EncodedLength(url, charSigned);
    forall i | 0 <= i < |url|
      ensures IsCString(url[..i])
      ensures Shorts(url) > 0 ==>
        (|Encode(url[..i], charSigned)| + Written(url[i], charSigned) <= 3 * |url| <==>
         (charSigned && url[i] as int >= 128 ==> 3 * (|url| - i) + 2 * Shorts(url[..i]) >= 10))
    {
      assert forall j :: 0 <= j < i ==> url[..i][j] == url[j];
      if Shorts(url) > 0 {
        RoundFits(url, i, charSigned);
      }
    }
  }

  /** One round: writes at `dst` and returns where the next character goes, or None if it runs past the buffer. */
  method EncodeOne(str: array<char>, c: char, dst: nat, charSigned: bool) returns (next: Option<nat>)
    requires c as int < 256
    modifies str
    ensures next.Some? <==> dst + Written(c, charSigned) <= str.Length
    ensures next.Some? ==>
      && next.value == dst + |EncodeChar(c, charSigned)| <= str.Length
      && str[..next.value] == old(str[..dst]) + EncodeChar(c, charSigned)
  {
    hide UpperHex;
    if Plain(c) {
      if dst + 1 > str.Length {
        return None;
      }
      str[dst] := c;
      next := Some(dst + 1);
    } else if c == ' ' {
      if dst + 1 > str.Length {
        return None;
      }
      str[dst] := '+';
      next := Some(dst + 1);
    } else {
      var field := HexField(Widened(c, charSigned));
      if dst + |field| + 2 > str.Length {
        return None;
      }
      str[dst] := '%';
      forall j | 0 <= j < |field| {
        str[dst + 1 + j] := field[j];
      }
      str[dst + 1 + |field|] := NUL;
      next := Some(dst + 3);
    }
  }

  /** `url_encode`, in a buffer of three bytes for each character: None where the source writes past its end. */
  method UrlEncode(url: string, charSigned: bool) returns (encoded: Option<string>)
    requires IsCString(url)
    ensures encoded == if Fits(url, charSigned) then Some(Encode(url, charSigned)) else None
  {
    hide EncodeChar, Written, Encode;
    var str := new char[3 * |url|];
    var dst := 0;
    assert Encode(url[..0], charSigned) == "" by { EncodedLength(url[..0], charSigned); }
    for i := 0 to |url|
      invariant IsCString(url[..i])
      invariant dst == |Encode(url[..i], charSigned)| <= str.Length && str[..dst] == Encode(url[..i], charSigned)
      invariant forall j :: 0 <= j < i ==>
        IsCString(url[..j]) && |Encode(url[..j], charSigned)| + Written(url[j], charSigned) <= 3 * |url|
    {
      assert url[..i + 1] == url[..i] + [url[i]];
      EncodeSnoc(url[..i], url[i], charSigned);
      var next := EncodeOne(str, url[i], dst, charSigned);
      if next.None? {
        return None;
      }
      dst := next.value;
    }
    assert url[..|url|] == url;
    if dst >= str.Length {
      return None;
    }
    str[dst] := NUL;
    encoded := Some(str[..dst]);
  }
}
