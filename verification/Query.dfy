/** The query and form parser: `split` of src/util.cpp and `parse_query_string` of src/request.cpp. */
module Query {
  import opened Options
  import opened UrlCodec
  import opened UrlRoundTrip
  import opened AprTable

  // ---- split ----

  /** The first `c` at or after `from`, or the length. */
  function IndexOf(s: string, c: char, from: nat): (i: nat)
    requires from <= |s|
    ensures from <= i <= |s| && (i < |s| ==> s[i] == c)
    ensures forall j :: from <= j < i ==> s[j] != c
    decreases |s| - from
  {
    if from == |s| || s[from] == c then from else IndexOf(s, c, from + 1)
  }

  /** The pieces between separators; a separator at the very end does not start another piece. */
  function Pieces(s: string, delim: char): seq<string>
    decreases |s|
  {
    if s == "" then []
    else
      var i := IndexOf(s, delim, 0);
      [s[..i]] + if i == |s| then [] else Pieces(s[i + 1..], delim)
  }

  lemma {:induction false} IndexOfTail(s: string, c: char, pos: nat, from: nat)
    requires pos <= from <= |s|
    ensures IndexOf(s[pos..], c, from - pos) == IndexOf(s, c, from) - pos
    decreases |s| - from
  {
    if from == |s| || s[from] == c {
    } else {
      IndexOfTail(s, c, pos, from + 1);
    }
  }

  lemma PiecesStep(s: string, delim: char, i: nat)
    requires s != "" && i == IndexOf(s, delim, 0)
    ensures Pieces(s, delim) == [s[..i]] + if i == |s| then [] else Pieces(s[i + 1..], delim)
  {
  }

  lemma PieceAt(s: string, delim: char, pos: nat)
    requires pos < |s|
    ensures var end := IndexOf(s, delim, pos);
            Pieces(s[pos..], delim) == [s[pos..end]] + if end == |s| then [] else Pieces(s[end + 1..], delim)
  {
    hide Pieces, IndexOf;
    var end, rest := IndexOf(s, delim, pos), s[pos..];
    IndexOfTail(s, delim, pos, pos);
    PiecesStep(rest, delim, end - pos);
    assert rest[..end - pos] == s[pos..end];
    if end < |s| {
      assert rest[end - pos + 1..] == s[end + 1..];
    }
  }

  /** `split`: one `getline` at a time until there is nothing left to read. */
  method Split(s: string, delim: char, elems: seq<string>) returns (all: seq<string>)
    ensures all == elems + Pieces(s, delim)
  {
    all := elems;
    var pos := 0;
    assert s[0..] == s;
    while pos < |s|
      invariant 0 <= pos <= |s|
      invariant all + Pieces(s[pos..], delim) == elems + Pieces(s, delim)
    {
      var end := IndexOf(s, delim, pos);
      PieceAt(s, delim, pos);
      ghost var rest := if end == |s| then [] else Pieces(s[end + 1..], delim);
      assert all + ([s[pos..end]] + rest) == all + [s[pos..end]] + rest;
      all := all + [s[pos..end]];
      pos := if end < |s| then end + 1 else end;
      assert pos == |s| ==> s[pos..] == "";
    }
    assert s[pos..] == "";
  }

  // ---- parse_query_string ----

  /** One piece: without `=`, or with nothing after the first one, it is skipped; otherwise both sides are decoded and
      merged into the table. */
  function AddPiece(t: seq<Entry>, piece: string): seq<Entry> {
    var found := IndexOf(piece, '=', 0);
    if found == |piece| || found == |piece| - 1 then t
    else Merge(t, UpToNul(Decode(piece[..found], true)), UpToNul(Decode(piece[found + 1..], true)))
  }

  function AddPieces(t: seq<Entry>, pieces: seq<string>): seq<Entry>
    decreases |pieces|
  {
    if pieces == [] then t else AddPiece(AddPieces(t, pieces[..|pieces| - 1]), pieces[|pieces| - 1])
  }

  /** The table a query string stands for. */
  function Parsed(query: string): seq<Entry> {
    AddPieces([], Pieces(query, '&'))
  }

  /** The body of the loop. `substr(found + 1, size() - 1)` asks for more than is left and gets the rest. */
  method AddOne(piece: string, t: Table)
    requires IsCString(piece)
    modifies t
    ensures t.entries == AddPiece(old(t.entries), piece)
  {
    hide Decode, UpToNul, Merge;
    var found := IndexOf(piece, '=', 0);
    if found < |piece| {
      if found == |piece| - 1 {
        return;
      }
      var key := UrlDecode(Some(piece[..found]), true);
      var value := UrlDecode(Some(piece[found + 1..]), true);
      t.MergeValue(key, value);
    }
  }

  lemma NoPieces(delim: char)
    ensures Pieces("", delim) == []
  {
  }

  lemma PartsAreCStrings(s: string, i: nat)
    requires IsCString(s) && i <= |s|
    ensures IsCString(s[..i]) && (i < |s| ==> IsCString(s[i + 1..]))
  {
  }

  lemma {:induction false} PiecesAreCStrings(s: string, delim: char)
    requires IsCString(s)
    ensures forall i :: 0 <= i < |Pieces(s, delim)| ==> IsCString(Pieces(s, delim)[i])
    decreases |s|
  {
    hide Pieces, IsCString;
    if s == "" {
      NoPieces(delim);
    } else {
      var i := IndexOf(s, delim, 0);
      PiecesStep(s, delim, i);
      PartsAreCStrings(s, i);
      if i < |s| {
        PiecesAreCStrings(s[i + 1..], delim);
      }
    }
  }

  method ParseQueryString(query: string, t: Table) returns (ok: bool)
    requires IsCString(query)
    modifies t
    ensures ok && t.entries == AddPieces(old(t.entries), Pieces(query, '&'))
  {
    hide AddPiece, Pieces;
    var pairs := Split(query, '&', []);
    assert pairs == Pieces(query, '&');
    PiecesAreCStrings(query, '&');
    for i := 0 to |pairs|
      invariant t.entries == AddPieces(old(t.entries), pairs[..i])
    {
      assert pairs[..i + 1][..i] == pairs[..i];
      AddOne(pairs[i], t);
    }
    assert pairs[..|pairs|] == pairs;
    ok := true;
  }

  // ---- Printing and parsing ----

  predicate CStrings(t: seq<Entry>) {
    forall i :: 0 <= i < |t| ==> IsCString(t[i].key) && IsCString(t[i].value)
  }

  /** The table a client prints: every key and value encoded. */
  function Encoded(t: seq<Entry>, charSigned: bool): (r: seq<Entry>)
    requires CStrings(t)
    ensures |r| == |t|
  {
    seq(|t|, i requires 0 <= i < |t| => Entry(Encode(t[i].key, charSigned), Encode(t[i].value, charSigned)))
  }

  /** The query string of a table. */
  function Printed(t: seq<Entry>, charSigned: bool): string
    requires CStrings(t)
  {
    Joined(Encoded(t, charSigned), "&")
  }

  /** Entries that come back: a value, bytes that survive encoding, and a key that no earlier entry has in any case. */
  predicate Printable(t: seq<Entry>, charSigned: bool) {
    forall i :: 0 <= i < |t| ==>
      && t[i].value != ""
      && AllSurvive(t[i].key, charSigned, true) && AllSurvive(t[i].value, charSigned, true)
      && !HasKey(t[..i], t[i].key)
  }

  lemma FirstSeparator(a: string, c: char, b: string)
    requires c !in a
    ensures IndexOf(a + [c] + b, c, 0) == |a|
    ensures IndexOf(a, c, 0) == |a|
  {
    var s := a + [c] + b;
    assert forall j :: 0 <= j < |a| ==> s[j] == a[j];
    assert s[|a|] == c;
    var i, k := IndexOf(s, c, 0), IndexOf(a, c, 0);
  }

  predicate NoAmpersand(t: seq<Entry>) {
    forall i :: 0 <= i < |t| ==> '&' !in t[i].key && '&' !in t[i].value
  }

  lemma NothingJoined()
    ensures Pieces(Joined([], "&"), '&') == []
  {
  }

  lemma PairIsPiece(e: Entry)
    requires '&' !in e.key && '&' !in e.value
    ensures '&' !in Pair(e) && Pair(e) != ""
  {
    assert Pair(e)[|e.key|] == '=';
  }

  lemma CutAtSeparator(first: string, c: char, rest: string)
    requires c !in first
    ensures Pieces(first + [c] + rest, c) == [first] + Pieces(rest, c)
  {
    hide Pieces, IndexOf;
    var s := first + [c] + rest;
    FirstSeparator(first, c, rest);
    assert |s| == |first| + 1 + |rest|;
    PiecesStep(s, c, |first|);
    assert s[..|first|] == first && s[|first| + 1..] == rest;
  }

  /** The first piece of a joined table, and the rest. */
  lemma FirstJoined(t: seq<Entry>)
    requires t != [] && NoAmpersand(t)
    ensures Pieces(Joined(t, "&"), '&') == [Pair(t[0])] + Pieces(Joined(t[1..], "&"), '&')
  {
    hide Pieces, IndexOf, Pair;
    var first := Pair(t[0]);
    PairIsPiece(t[0]);
    if |t| == 1 {
      FirstSeparator(first, '&', "");
      PiecesStep(first, '&', |first|);
      assert first[..|first|] == first;
      NothingJoined();
    } else {
      var rest := Joined(t[1..], "&");
      assert Joined(t, "&") == first + ['&'] + rest;
      CutAtSeparator(first, '&', rest);
    }
  }

  /** Splitting a joined table gives its pairs: no pair is empty and none holds the separator. */
  lemma {:induction false} PiecesOfJoined(t: seq<Entry>)
    requires NoAmpersand(t)
    ensures Pieces(Joined(t, "&"), '&') == seq(|t|, i requires 0 <= i < |t| => Pair(t[i]))
    decreases |t|
  {
    hide Pieces, IndexOf, Joined, Pair;
    if t == [] {
      NothingJoined();
    } else {
      PiecesOfJoined(t[1..]);
      FirstJoined(t);
    }
  }

  /** What decoding an encoded string gives. */
  function Recovered(s: string, charSigned: bool): string
    requires IsCString(s)
  {
    UpToNul(Decode(Encode(s, charSigned), true))
  }

  function AddRecovered(t: seq<Entry>, e: Entry, charSigned: bool): (r: seq<Entry>)
    requires IsCString(e.key) && IsCString(e.value)
    ensures |r| <= |t| + 1
  {
    if e.value == "" then t else Merge(t, Recovered(e.key, charSigned), Recovered(e.value, charSigned))
  }

  function RecoveredTable(t: seq<Entry>, charSigned: bool): (r: seq<Entry>)
    requires CStrings(t)
    ensures |r| <= |t|
  {
    if t == [] then [] else AddRecovered(RecoveredTable(t[..|t| - 1], charSigned), t[|t| - 1], charSigned)
  }

  lemma AddPrintedPiece(t: seq<Entry>, e: Entry, charSigned: bool)
    requires IsCString(e.key) && IsCString(e.value)
    ensures AddPiece(t, Encode(e.key, charSigned) + "=" + Encode(e.value, charSigned)) == AddRecovered(t, e, charSigned)
  {
    var k, v := Encode(e.key, charSigned), Encode(e.value, charSigned);
    EncodedIsSafe(e.key, charSigned);
    FirstSeparator(k, '=', v);
    var piece := k + "=" + v;
    assert piece[..|k|] == k && piece[|k| + 1..] == v;
  }

  lemma {:induction false} ParsedPrintedFront(t: seq<Entry>, pieces: seq<string>, charSigned: bool)
    requires CStrings(t) && |pieces| == |t|
    requires forall i :: 0 <= i < |t| ==> pieces[i] == Pair(Encoded(t, charSigned)[i])
    ensures AddPieces([], pieces) == RecoveredTable(t, charSigned)
    decreases |t|
  {
    if t == [] {
    } else {
      var n := |t| - 1;
      ParsedPrintedFront(t[..n], pieces[..n], charSigned);
      AddPrintedPiece(AddPieces([], pieces[..n]), t[n], charSigned);
    }
  }

  lemma ParsedPrinted(t: seq<Entry>, charSigned: bool)
    requires CStrings(t)
    ensures Parsed(Printed(t, charSigned)) == RecoveredTable(t, charSigned)
  {
    var e := Encoded(t, charSigned);
    forall i | 0 <= i < |e|
      ensures '&' !in e[i].key && '&' !in e[i].value
    {
      EncodedIsSafe(t[i].key, charSigned);
      EncodedIsSafe(t[i].value, charSigned);
    }
    PiecesOfJoined(e);
    ParsedPrintedFront(t, Pieces(Printed(t, charSigned), '&'), charSigned);
  }

  lemma PrintableSnoc(front: seq<Entry>, e: Entry, charSigned: bool)
    ensures Printable(front + [e], charSigned) <==>
      Printable(front, charSigned) && e.value != "" && !HasKey(front, e.key) &&
      AllSurvive(e.key, charSigned, true) && AllSurvive(e.value, charSigned, true)
  {
    hide HasKey, AllSurvive;
    var t, n := front + [e], |front|;
    assert t[..n] == front && t[n] == e;
    assert forall i :: 0 <= i < n ==> t[i] == front[i] && t[..i] == front[..i];
  }

  lemma PrintableNothing(charSigned: bool)
    ensures Printable([], charSigned)
  {
  }

  lemma {:induction false} RecoveredIdentity(t: seq<Entry>, charSigned: bool)
    requires CStrings(t)
    ensures RecoveredTable(t, charSigned) == t <==> Printable(t, charSigned)
    decreases |t|
  {
    hide Printable, HasKey, AllSurvive, Encode, Decode, UpToNul, IsCString;
    if t == [] {
      PrintableNothing(charSigned);
    } else {
      var n := |t| - 1;
      var front, e := t[..n], t[n];
      var r := RecoveredTable(front, charSigned);
      RecoveredIdentity(front, charSigned);
      RoundTrip(e.key, charSigned, true);
      RoundTrip(e.value, charSigned, true);
      PrintableSnoc(front, e, charSigned);
      assert t == front + [e];
      if RecoveredTable(t, charSigned) == t {
        assert |AddRecovered(r, e, charSigned)| == n + 1;
        assert e.value != "" && |r| == n;
        var added := Entry(Recovered(e.key, charSigned), Recovered(e.value, charSigned));
        assert r + [added] == front + [e];
        assert r == (r + [added])[..n] == front;
        assert added == (r + [added])[n] == e;
      }
    }
  }

  /** Parsing a printed table gives the table back, entry by entry and in order, exactly when it is printable. */
  lemma QueryRoundTrip(t: seq<Entry>, charSigned: bool)
    requires CStrings(t)
    ensures Parsed(Printed(t, charSigned)) == t <==> Printable(t, charSigned)
  {
    ParsedPrinted(t, charSigned);
    RecoveredIdentity(t, charSigned);
  }
}
