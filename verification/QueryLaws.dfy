/** What `split` and `parse_query_string` make of any string, one piece at a time. */
module QueryLaws {
  import opened UrlCodec
  import opened AprTable
  import opened Query

  // ---- split ----

  predicate NeedsEmptyPiece(a: string, delim: char) {
    a == "" || a[|a| - 1] == delim
  }

  /** A string without the delimiter is one piece, unless it is empty. */
  lemma OnePiece(s: string, delim: char)
    requires delim !in s
    ensures Pieces(s, delim) == if s == "" then [] else [s]
  {
    if s == "" {
    } else {
      FirstSeparator(s, delim, "");
      PiecesStep(s, delim, |s|);
      assert s[..|s|] == s;
    }
  }

  lemma FirstDelimiter(s: string, delim: char)
    requires delim in s
    ensures var i := IndexOf(s, delim, 0); i < |s| && s[i] == delim && delim !in s[..i]
  {
  }

  lemma Regroup(a: seq<string>, b: seq<string>, c: seq<string>, d: seq<string>)
    ensures a + (b + c + d) == a + b + c + d
  {
  }

  /** A delimiter separates the pieces before it from those after it; an empty piece stands between two delimiters and
      before a first one, but not after a last one. */
  lemma {:induction false} PiecesConcat(a: string, delim: char, c: string)
    ensures Pieces(a + [delim] + c, delim) ==
      Pieces(a, delim) + (if NeedsEmptyPiece(a, delim) then [""] else []) + Pieces(c, delim)
    decreases |a|
  {
    hide Pieces, IndexOf;
    var s := a + [delim] + c;
    if delim !in a {
      CutAtSeparator(a, delim, c);
      OnePiece(a, delim);
      assert s == a + [delim] + c;
    } else {
      var i := IndexOf(a, delim, 0);
      FirstDelimiter(a, delim);
      var first, rest := a[..i], a[i + 1..];
      assert a == first + [delim] + rest;
      assert s == first + [delim] + (rest + [delim] + c);
      CutAtSeparator(first, delim, rest + [delim] + c);
      CutAtSeparator(first, delim, rest);
      PiecesConcat(rest, delim, c);
      assert NeedsEmptyPiece(a, delim) <==> NeedsEmptyPiece(rest, delim);
      Regroup([first], Pieces(rest, delim), if NeedsEmptyPiece(a, delim) then [""] else [], Pieces(c, delim));
    }
  }

  // ---- parse_query_string ----

  /** What a key or a value decodes to. */
  function Decoded(s: string): string {
    UpToNul(Decode(s, true))
  }

  /** What `parse_query_string` makes of a table and a string. */
  function ParsedInto(t: seq<Entry>, query: string): seq<Entry> {
    AddPieces(t, Pieces(query, '&'))
  }

  lemma {:induction false} AddPiecesConcat(t: seq<Entry>, p: seq<string>, q: seq<string>)
    ensures AddPieces(t, p + q) == AddPieces(AddPieces(t, p), q)
    decreases |q|
  {
    hide AddPiece;
    if q == [] {
      assert p + q == p;
    } else {
      assert (p + q)[..|p + q| - 1] == p + q[..|q| - 1];
      AddPiecesConcat(t, p, q[..|q| - 1]);
    }
  }

  lemma OneMorePiece(t: seq<Entry>, piece: string)
    ensures AddPieces(t, [piece]) == AddPiece(t, piece)
  {
    assert [piece][..0] == [];
  }

  lemma EmptyPiece(t: seq<Entry>)
    ensures AddPiece(t, "") == t
  {
  }

  /** An ampersand joins two query strings: the second one is parsed into what the first one gives. */
  lemma ParsedConcat(t: seq<Entry>, a: string, c: string)
    ensures ParsedInto(t, a + "&" + c) == ParsedInto(ParsedInto(t, a), c)
  {
    hide Pieces, AddPieces;
    var p, q := Pieces(a, '&'), Pieces(c, '&');
    PiecesConcat(a, '&', c);
    if NeedsEmptyPiece(a, '&') {
      AddPiecesConcat(t, p + [""], q);
      AddPiecesConcat(t, p, [""]);
      OneMorePiece(AddPieces(t, p), "");
      EmptyPiece(AddPieces(t, p));
    } else {
      assert p + [] == p;
      AddPiecesConcat(t, p, q);
    }
  }

  /** A piece without an equals sign makes no difference. */
  lemma NoEqualsSign(t: seq<Entry>, b: string)
    requires '=' !in b && '&' !in b
    ensures ParsedInto(t, b) == t
  {
    OnePiece(b, '&');
    if b == "" {
    } else {
      FirstSeparator(b, '=', "");
      OneMorePiece(t, b);
    }
  }

  /** Nor does one with nothing after its first equals sign. */
  lemma NoValue(t: seq<Entry>, key: string)
    requires '=' !in key && '&' !in key
    ensures ParsedInto(t, key + "=") == t
  {
    var b := key + "=";
    OnePiece(b, '&');
    FirstSeparator(key, '=', "");
    assert key + ['='] + "" == b;
    OneMorePiece(t, b);
  }

  /** Any other piece is cut at its first equals sign, and both sides, decoded, are merged into the table. */
  lemma OnePair(t: seq<Entry>, key: string, value: string)
    requires '=' !in key && '&' !in key && '&' !in value && value != ""
    ensures ParsedInto(t, key + "=" + value) == Merge(t, Decoded(key), Decoded(value))
  {
    hide Merge, Decode, UpToNul;
    var b := key + "=" + value;
    OnePiece(b, '&');
    FirstSeparator(key, '=', value);
    assert b[..|key|] == key && b[|key| + 1..] == value;
    OneMorePiece(t, b);
  }

  /** Wherever a piece without an equals sign stands, the table is the same as without it. */
  lemma PieceMakesNoDifference(a: string, b: string, c: string)
    requires '=' !in b && '&' !in b
    ensures Parsed(b) == []
    ensures Parsed(a + "&" + b) == Parsed(a) && Parsed(b + "&" + c) == Parsed(c)
    ensures Parsed(a + "&" + (b + "&" + c)) == Parsed(a + "&" + c)
  {
    hide AddPieces, Pieces;
    NoEqualsSign([], b);
    NoEqualsSign(ParsedInto([], a), b);
    ParsedConcat([], a, b);
    ParsedConcat([], b, c);
    ParsedConcat([], a, b + "&" + c);
    ParsedConcat(ParsedInto([], a), b, c);
    ParsedConcat([], a, c);
  }

  // ---- Where the keys come from ----

  /** A key is the decoding of what stands before the first equals sign of a piece with something after it. */
  ghost predicate ComesFrom(key: string, piece: string) {
    exists k, v :: piece == k + "=" + v && '=' !in k && v != "" && key == Decoded(k)
  }

  lemma PieceAddsItsKey(t: seq<Entry>, piece: string, i: nat)
    requires i < |AddPiece(t, piece)|
    ensures var e := AddPiece(t, piece)[i];
            (i < |t| && e.key == t[i].key) || (i == |t| && ComesFrom(e.key, piece))
  {
    hide Decode, UpToNul;
    var found := IndexOf(piece, '=', 0);
    if found < |piece| - 1 {
      assert piece == piece[..found] + "=" + piece[found + 1..];
    }
  }

  lemma {:induction false} KeysComeFromPieces(pieces: seq<string>, i: nat)
    requires i < |AddPieces([], pieces)|
    ensures exists j :: 0 <= j < |pieces| && ComesFrom(AddPieces([], pieces)[i].key, pieces[j])
    decreases |pieces|
  {
    hide AddPiece, ComesFrom;
    if pieces == [] {
    } else {
      var front, n := pieces[..|pieces| - 1], |pieces| - 1;
      var t := AddPieces([], front);
      PieceAddsItsKey(t, pieces[n], i);
      if i < |t| {
        KeysComeFromPieces(front, i);
        var j :| 0 <= j < n && ComesFrom(t[i].key, front[j]);
        assert front[j] == pieces[j];
      }
    }
  }

  /** Every key of a parsed query comes from one of its pieces. */
  lemma KeysOfParsed(query: string, i: nat)
    requires i < |Parsed(query)|
    ensures exists j :: 0 <= j < |Pieces(query, '&')| && ComesFrom(Parsed(query)[i].key, Pieces(query, '&')[j])
  {
    KeysComeFromPieces(Pieces(query, '&'), i);
  }
}
