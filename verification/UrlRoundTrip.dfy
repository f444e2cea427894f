/** Which strings `url_decode` gives back after `url_encode`. */
module UrlRoundTrip {
  import opened UrlCodec

  /** A byte that survives: the encoding of one below 16 is padded with a space, that of one from 128 on is cut from
      the sign-extended value where `char` is signed, and a space comes back only from a query. */
  predicate Survives(c: char, charSigned: bool, isQuery: bool) {
    c as int >= 16 && (charSigned ==> c as int < 128 || c as int == 255) && (c == ' ' ==> isQuery)
  }

  predicate AllSurvive(s: string, charSigned: bool, isQuery: bool) {
    forall i :: 0 <= i < |s| ==> Survives(s[i], charSigned, isQuery)
  }

  /** What the encoding of one byte decodes to. */
  function Image(c: char, charSigned: bool, isQuery: bool): (s: string)
    requires 0 < c as int < 256
    ensures s != ""
  {
    if c == ' ' then (if isQuery then " " else "+")
    else if c as int < 16 then ['%', ' ', UpperDigit(c as int)]
    else if charSigned && c as int >= 128 then [255 as char]
    else [c]
  }

  lemma DigitValue(v: nat)
    requires v < 16
    ensures HexValue(UpperDigit(v)) == v && UpperDigit(v) as int < 128 && UpperDigit(v) as int > 32
    ensures UpperDigit(v) != '+' && UpperDigit(v) != '%' && UpperDigit(v) != '&' && UpperDigit(v) != '='
  {
  }

  lemma TwoDigits(v: nat)
    requires 16 <= v < 256
    ensures HexField(v) == [UpperDigit(v / 16), UpperDigit(v % 16)]
  {
    assert UpperHex(v / 16) == [UpperDigit(v / 16)];
  }

  lemma {:induction false} LeadingDigits(v: nat, k: nat)
    requires 255 * Power16(k) <= v < 256 * Power16(k)
    ensures |UpperHex(v)| >= 2 && UpperHex(v)[..2] == "FF"
    decreases k
  {
    if k == 0 {
      TwoDigits(v);
    } else {
      LeadingDigits(v / 16, k - 1);
      assert UpperHex(v)[..2] == UpperHex(v / 16)[..2];
    }
  }

  /** Every byte from 128 on is written as `%FF` where `char` is signed. */
  lemma SignedField(c: char)
    requires 128 <= c as int < 256
    ensures HexField(Widened(c, true))[..2] == "FF"
  {
    assert Power16(6) == 0x100_0000 by {
      assert Power16(1) == 16 && Power16(2) == 256 && Power16(3) == 4096 && Power16(4) == 65536;
    }
    LeadingDigits(Widened(c, true), 6);
  }

  /** The shape of an encoded byte. */
  lemma EncodedShape(c: char, charSigned: bool)
    requires 0 < c as int < 256
    ensures EncodeChar(c, charSigned) ==
      if Plain(c) then [c]
      else if c == ' ' then "+"
      else if c as int < 16 then ['%', ' ', UpperDigit(c as int)]
      else if charSigned && c as int >= 128 then "%FF"
      else ['%', UpperDigit(c as int / 16), UpperDigit(c as int % 16)]
  {
    if !Plain(c) && c != ' ' {
      if c as int < 16 {
        assert HexField(c as int) == " " + [UpperDigit(c as int)];
      } else if charSigned && c as int >= 128 {
        SignedField(c);
      } else {
        TwoDigits(c as int);
      }
    }
  }

  /** Decoding works byte by byte on encoded text, whatever follows. */
  lemma DecodeEncodedChar(c: char, rest: string, charSigned: bool, isQuery: bool)
    requires 0 < c as int < 256
    ensures Decode(EncodeChar(c, charSigned) + rest, isQuery) == Image(c, charSigned, isQuery) + Decode(rest, isQuery)
  {
    hide EncodeChar, Decode, UpperDigit;
    EncodedShape(c, charSigned);
    var e := EncodeChar(c, charSigned);
    var s := e + rest;
    DecodeStep(s, isQuery);
    assert s[|e|..] == rest;
    if Plain(c) {
    } else if c == ' ' {
    } else if c as int < 16 {
      var d := UpperDigit(c as int);
      DigitValue(c as int);
      assert s[1..] == [' ', d] + rest && s[2..] == [d] + rest;
      DecodeStep(s[1..], isQuery);
      DecodeStep(s[2..], isQuery);
      assert s[1..][1..] == s[2..] && s[2..][1..] == rest;
      assert ['%'] + ([' '] + ([d] + Decode(rest, isQuery))) == ['%', ' ', d] + Decode(rest, isQuery);
    } else if charSigned && c as int >= 128 {
      assert HexValue('F') == 15;
    } else {
      DigitValue(c as int / 16);
      DigitValue(c as int % 16);
      assert 16 * (c as int / 16) + c as int % 16 == c as int;
    }
  }

  /** The decoding of an encoding, byte by byte. */
  function Images(s: string, charSigned: bool, isQuery: bool): string
    requires IsCString(s)
  {
    if s == "" then "" else Image(s[0], charSigned, isQuery) + Images(s[1..], charSigned, isQuery)
  }

  lemma {:induction false} DecodeEncode(s: string, charSigned: bool, isQuery: bool)
    requires IsCString(s)
    ensures Decode(Encode(s, charSigned), isQuery) == Images(s, charSigned, isQuery)
    ensures NUL !in Images(s, charSigned, isQuery)
    decreases |s|
  {
    if s == "" {
    } else {
      DecodeEncodedChar(s[0], Encode(s[1..], charSigned), charSigned, isQuery);
      DecodeEncode(s[1..], charSigned, isQuery);
      if s[0] as int < 16 { DigitValue(s[0] as int); }
      assert NUL !in Image(s[0], charSigned, isQuery);
    }
  }

  lemma {:induction false} ImagesIdentity(s: string, charSigned: bool, isQuery: bool)
    requires IsCString(s)
    ensures Images(s, charSigned, isQuery) == s <==> AllSurvive(s, charSigned, isQuery)
    decreases |s|
  {
    if s == "" {
    } else {
      var image, rest := Image(s[0], charSigned, isQuery), Images(s[1..], charSigned, isQuery);
      ImagesIdentity(s[1..], charSigned, isQuery);
      assert s == [s[0]] + s[1..];
      if Survives(s[0], charSigned, isQuery) {
        assert image == [s[0]];
        assert image + rest == s <==> rest == s[1..] by {
          assert (image + rest)[1..] == rest;
        }
        assert AllSurvive(s, charSigned, isQuery) <==> AllSurvive(s[1..], charSigned, isQuery);
      } else {
        assert (image + rest)[0] == image[0] != s[0];
      }
    }
  }

  /** `url_decode(url_encode(s))` is `s` exactly when every byte of `s` survives: 0x10 to 0x7F and 0xFF where `char` is
      signed, 0x10 to 0xFF where it is not, and no space if the decoder is told it is not a query. */
  lemma RoundTrip(s: string, charSigned: bool, isQuery: bool)
    requires IsCString(s)
    ensures UpToNul(Decode(Encode(s, charSigned), isQuery)) == s <==> AllSurvive(s, charSigned, isQuery)
  {
    DecodeEncode(s, charSigned, isQuery);
    ImagesIdentity(s, charSigned, isQuery);
  }

  lemma EncodedCharIsSafe(c: char, charSigned: bool)
    requires 0 < c as int < 256
    ensures var e := EncodeChar(c, charSigned); IsCString(e) && '&' !in e && '=' !in e
  {
    EncodedShape(c, charSigned);
    if c as int < 16 { DigitValue(c as int); }
    DigitValue(c as int / 16);
    DigitValue(c as int % 16);
  }

  /** An encoding is a C string, and neither separator of a query occurs in it. */
  lemma {:induction false} EncodedIsSafe(s: string, charSigned: bool)
    requires IsCString(s)
    ensures IsCString(Encode(s, charSigned)) && '&' !in Encode(s, charSigned) && '=' !in Encode(s, charSigned)
    decreases |s|
  {
    if s == "" {
    } else {
      EncodedCharIsSafe(s[0], charSigned);
      EncodedIsSafe(s[1..], charSigned);
    }
  }
}
