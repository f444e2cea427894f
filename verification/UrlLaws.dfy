/** What `url_encode` and `url_decode` do to each character, with the characters written out. */
module UrlLaws {
  import opened UrlCodec
  import opened UrlRoundTrip

  // ---- Digits ----

  /** A hexadecimal digit of either case and its value. */
  predicate IsDigit(c: char, v: nat) {
    v < 16 && (c == "0123456789abcdef"[v] || c == "0123456789ABCDEF"[v])
  }

  predicate IsAnyDigit(c: char) {
    c in "0123456789" || c in "abcdef" || c in "ABCDEF"
  }

  lemma DigitHasValue(c: char, v: nat)
    requires IsDigit(c, v)
    ensures HexValue(c) == v && IsAnyDigit(c)
  {
    assert "0123456789abcdef" == "0123456789" + "abcdef" && "0123456789ABCDEF" == "0123456789" + "ABCDEF";
  }

  lemma DecimalDigits(c: char)
    ensures c in "0123456789" <==> '0' <= c <= '9'
  {
    if '0' <= c <= '9' {
      assert "0123456789"[c as int - '0' as int] == c;
    }
  }

  lemma LetterDigits(c: char)
    ensures c in "abcdef" <==> 'a' <= c <= 'f'
    ensures c in "ABCDEF" <==> 'A' <= c <= 'F'
  {
    if 'a' <= c <= 'f' {
      assert "abcdef"[c as int - 'a' as int] == c;
    }
    if 'A' <= c <= 'F' {
      assert "ABCDEF"[c as int - 'A' as int] == c;
    }
  }

  lemma NoDigitNoValue(c: char)
    ensures HexValue(c) == 255 <==> !IsAnyDigit(c)
  {
    DecimalDigits(c);
    LetterDigits(c);
  }

  // ---- Decoding ----

  /** A `%` followed by two digits, each of either case, is the byte they name. */
  lemma DecodeEscape(c1: char, c2: char, i: nat, j: nat, rest: string, isQuery: bool)
    requires IsDigit(c1, i) && IsDigit(c2, j)
    ensures Decode("%" + ([c1, c2] + rest), isQuery) == [(16 * i + j) as char] + Decode(rest, isQuery)
  {
    var s := "%" + ([c1, c2] + rest);
    DigitHasValue(c1, i);
    DigitHasValue(c2, j);
    assert s[0] == '%' && s[1] == c1 && s[2] == c2 && s[3..] == rest;
    DecodeStep(s, isQuery);
  }

  /** Any other `%` stays. */
  lemma DecodeBarePercent(rest: string, isQuery: bool)
    requires |rest| < 2 || !IsAnyDigit(rest[0]) || !IsAnyDigit(rest[1])
    ensures Decode("%" + rest, isQuery) == "%" + Decode(rest, isQuery)
  {
    var s := "%" + rest;
    if |rest| >= 2 {
      NoDigitNoValue(rest[0]);
      NoDigitNoValue(rest[1]);
      assert s[1] == rest[0] && s[2] == rest[1];
    }
    assert s[1..] == rest;
    DecodeStep(s, isQuery);
  }

  /** A `+` is a space, in a query only. */
  lemma DecodePlus(rest: string, isQuery: bool)
    ensures Decode("+" + rest, isQuery) == (if isQuery then " " else "+") + Decode(rest, isQuery)
  {
    assert ("+" + rest)[1..] == rest;
    DecodeStep("+" + rest, isQuery);
  }

  /** Every other character stays. */
  lemma DecodeOther(c: char, rest: string, isQuery: bool)
    requires c != '%' && c != '+'
    ensures Decode([c] + rest, isQuery) == [c] + Decode(rest, isQuery)
  {
    assert ([c] + rest)[1..] == rest;
    DecodeStep([c] + rest, isQuery);
  }

  lemma {:induction false} DecodeNothingToDo(s: string, isQuery: bool)
    requires '%' !in s && '+' !in s
    ensures Decode(s, isQuery) == s
    decreases |s|
  {
    if s == "" {
      assert Decode(s, isQuery) == "";
    } else {
      assert s == [s[0]] + s[1..];
      DecodeOther(s[0], s[1..], isQuery);
      DecodeNothingToDo(s[1..], isQuery);
    }
  }

  /** A C string is cut at its first zero byte. */
  lemma CutAtNul(a: string, b: string)
    requires NUL !in a
    ensures NUL == 0 as char && UpToNul(a + [NUL] + b) == a
  {
    var s := a + [NUL] + b;
    assert s[|a|] == NUL;
    UpToNulOfBuffer(s, |a|);
    assert s[..|a|] == a;
  }

  // ---- Encoding ----

  /** The characters that `isalnum` or the three marks let through. */
  predicate Unescaped(c: char) {
    || c in "ABCDEFGHIJKLM" || c in "NOPQRSTUVWXYZ"
    || c in "abcdefghijklm" || c in "nopqrstuvwxyz"
    || c in "0123456789"
    || c in "._-"
  }

  lemma UpperLettersToM(c: char)
    ensures c in "ABCDEFGHIJKLM" <==> 'A' <= c <= 'M'
  {
    if 'A' <= c <= 'M' {
      assert "ABCDEFGHIJKLM"[c as int - 'A' as int] == c;
    }
  }

  lemma UpperLettersFromN(c: char)
    ensures c in "NOPQRSTUVWXYZ" <==> 'N' <= c <= 'Z'
  {
    if 'N' <= c <= 'Z' {
      assert "NOPQRSTUVWXYZ"[c as int - 'N' as int] == c;
    }
  }

  lemma LowerLettersToM(c: char)
    ensures c in "abcdefghijklm" <==> 'a' <= c <= 'm'
  {
    if 'a' <= c <= 'm' {
      assert "abcdefghijklm"[c as int - 'a' as int] == c;
    }
  }

  lemma LowerLettersFromN(c: char)
    ensures c in "nopqrstuvwxyz" <==> 'n' <= c <= 'z'
  {
    if 'n' <= c <= 'z' {
      assert "nopqrstuvwxyz"[c as int - 'n' as int] == c;
    }
  }

  lemma Marks(c: char)
    ensures c in "._-" <==> c == '.' || c == '_' || c == '-'
  {
  }

  lemma UnescapedArePlain(c: char)
    ensures Unescaped(c) <==> Plain(c)
  {
    UpperLettersToM(c);
    UpperLettersFromN(c);
    LowerLettersToM(c);
    LowerLettersFromN(c);
    DecimalDigits(c);
    Marks(c);
  }

  lemma PlusIsEscaped()
    ensures !Plain('+') && !Plain(' ')
  {
  }

  lemma UpperDigitIs(v: nat)
    requires v < 16
    ensures UpperDigit(v) == "0123456789ABCDEF"[v]
  {
  }

  /** Which characters are left alone, which one becomes a plus sign, and what `%2X` makes of the others. */
  lemma EncodeCharIs(c: char, charSigned: bool)
    requires 0 < c as int < 256
    ensures EncodeChar(c, charSigned) == [c] <==> Unescaped(c)
    ensures EncodeChar(c, charSigned) == "+" <==> c == ' '
    ensures !Unescaped(c) && c != ' ' ==>
      var v := c as int;
      EncodeChar(c, charSigned) ==
        if v < 16 then ['%', ' ', "0123456789ABCDEF"[v]]
        else if charSigned && v >= 128 then "%FF"
        else ['%', "0123456789ABCDEF"[v / 16], "0123456789ABCDEF"[v % 16]]
  {
    hide Plain, Unescaped;
    UnescapedArePlain(c);
    EncodedShape(c, charSigned);
    PlusIsEscaped();
    var v := c as int;
    UpperDigitIs(if v < 16 then v else v / 16);
    UpperDigitIs(v % 16);
  }

  lemma EncodeFirst(s: string, charSigned: bool)
    requires s != "" && IsCString(s)
    ensures IsCString(s[1..]) && Encode(s, charSigned) == EncodeChar(s[0], charSigned) + Encode(s[1..], charSigned)
  {
  }

  lemma PartsOfCString(a: string, b: string)
    requires IsCString(a + b)
    ensures IsCString(a) && IsCString(b)
  {
    assert forall i :: 0 <= i < |a| ==> (a + b)[i] == a[i];
    assert forall i :: 0 <= i < |b| ==> (a + b)[|a| + i] == b[i];
  }

  lemma Associate(a: string, b: string, c: string)
    ensures a + (b + c) == a + b + c
  {
  }

  lemma {:induction false} EncodeConcat(a: string, b: string, charSigned: bool)
    requires IsCString(a + b)
    ensures IsCString(a) && IsCString(b)
    ensures Encode(a + b, charSigned) == Encode(a, charSigned) + Encode(b, charSigned)
    decreases |a|
  {
    hide EncodeChar, Encode, IsCString;
    PartsOfCString(a, b);
    if a == "" {
      assert a + b == b;
      assert Encode(a, charSigned) == "";
    } else {
      var tail := a[1..];
      assert (a + b)[1..] == tail + b && (a + b)[0] == a[0];
      EncodeFirst(a, charSigned);
      EncodeFirst(a + b, charSigned);
      EncodeConcat(tail, b, charSigned);
      Associate(EncodeChar(a[0], charSigned), Encode(tail, charSigned), Encode(b, charSigned));
    }
  }

  lemma ShortFirst(c: char, charSigned: bool)
    requires 0 < c as int < 256
    ensures |EncodeChar(c, charSigned)| == 1 || |EncodeChar(c, charSigned)| == 3
  {
    EncodedShape(c, charSigned);
  }

  lemma LongerEncoding(s: string, charSigned: bool)
    requires IsCString(s)
    ensures |Encode(s, charSigned)| >= |s|
  {
    EncodedLength(s, charSigned);
    ShortsSplit(s, 0);
    assert s[0..] == s;
  }

  /** The strings that are their own encoding. */
  lemma {:induction false} OwnEncoding(s: string, charSigned: bool)
    requires IsCString(s)
    ensures Encode(s, charSigned) == s <==> forall i :: 0 <= i < |s| ==> Unescaped(s[i])
    decreases |s|
  {
    hide EncodeChar, Unescaped;
    if s == "" {
      assert Encode(s, charSigned) == "";
    } else {
      var first, rest := EncodeChar(s[0], charSigned), Encode(s[1..], charSigned);
      assert Encode(s, charSigned) == first + rest;
      EncodeCharIs(s[0], charSigned);
      OwnEncoding(s[1..], charSigned);
      LongerEncoding(s[1..], charSigned);
      assert s == [s[0]] + s[1..];
      assert |first| == 1 && first + rest == s ==> first == [s[0]] by {
        if |first| == 1 && first + rest == s {
          assert (first + rest)[0] == first[0];
        }
      }
      assert first == [s[0]] && first + rest == s ==> rest == s[1..] by {
        assert (first + rest)[|first|..] == rest;
      }
      ShortFirst(s[0], charSigned);
    }
  }
}
