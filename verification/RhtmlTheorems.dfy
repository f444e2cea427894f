/** The main results about a whole compilation. */
module RhtmlTheorems {
  import opened Options
  import opened RhtmlScanner
  import opened RhtmlOutput
  import opened RhtmlTemplate
  import opened RubyReader
  import opened RhtmlMeaning

  // ---- The part of the document that reaches `text` ----

  /** The document up to its last line feed. */
  function Flushed(doc: string): (front: string)
    ensures front <= doc
    ensures front == "" || front[|front| - 1] == '\n'
    ensures '\n' !in doc[|front|..]
  {
    if doc == "" || doc[|doc| - 1] == '\n' then doc else Flushed(doc[..|doc| - 1])
  }

  /** The leaving of INITIAL does nothing to the parser. */
  lemma RanFromInitial(o: Output, s: string)
    ensures Ran(o, Scan(Initial, s)) == Ran(o, Scan(Text, s))
  {
    if s != "" {
      ScanFromInitial(s);
      RanConcat(o, [Token(Restart, "")], Scan(Text, s));
    }
  }

  lemma TokenKeepsText(o: Output, start: Start, s: string)
    requires start != Initial && s != "" && '\n' !in s
    ensures Acted(o, NextToken(start, s)).text == o.text && Begin(start, Next(start, s).0) != Initial
  {
  }

  lemma {:induction false} NoFlushWithoutLineFeed(o: Output, start: Start, s: string)
    requires start != Initial && '\n' !in s
    ensures Ran(o, Scan(start, s)).text == o.text
    decreases |s|
  {
    hide Acted, Next;
    if s == "" {
    } else {
      TokenKeepsText(o, start, s);
      var next, rest := Begin(start, Next(start, s).0), s[Consumed(start, s)..];
      RanScan(o, start, s);
      NoFlushWithoutLineFeed(Acted(o, NextToken(start, s)), next, rest);
    }
  }

  lemma {:induction false} NotBackToInitial(start: Start, s: string)
    requires start != Initial || s != ""
    ensures FinalStart(start, s) != Initial
    decreases |s|, start == Initial
  {
    if s == "" {
    } else {
      NotBackToInitial(Begin(start, Next(start, s).0), s[Consumed(start, s)..]);
    }
  }

  /** `finalize` leaves the unfinished line behind: `text` only depends on the document up to its last line feed. */
  lemma TextIsFlushedPart(o: Output, doc: string)
    ensures Compiled(o, doc).text == Compiled(o, Flushed(doc)).text
  {
    var a := Flushed(doc);
    var b := doc[|a|..];
    assert doc == a + b;
    ScanConcat(Initial, a, b);
    RanConcat(Cleared(o), Scan(Initial, a), Scan(FinalStart(Initial, a), b));
    var mid := Ran(Cleared(o), Scan(Initial, a));
    if a == "" {
      RanFromInitial(mid, b);
      NoFlushWithoutLineFeed(mid, Text, b);
    } else {
      NotBackToInitial(Initial, a);
      NoFlushWithoutLineFeed(mid, FinalStart(Initial, a), b);
    }
  }

  // ---- Meaning preservation ----

  lemma StartTracks(o: Output)
    requires o.state == TextState
    ensures Tracks(Cleared(o), Text, [], "")
  {
    assert Whole(Cleared(o)) == [];
  }

  lemma DamageFromInitial(doc: string)
    ensures DamageOf(Initial, false, true, doc) == DamageOf(Text, false, true, doc)
  {
    if doc != "" {
      assert doc[0..] == doc;
    }
  }

  /** A document that ends with a line feed and whose comments do no damage compiles to a program that does what
      the document says; if the document never closes an expression block, the program is not complete either. */
  lemma CompilePreservesMeaning(o: Output, doc: string)
    requires o.state == TextState
    requires Harmless(doc)
    requires doc == "" || doc[|doc| - 1] == '\n'
    ensures Behaviour(Compiled(o, doc).text) == TextMeaning(doc)
  {
    StartTracks(o);
    RanFromInitial(Cleared(o), doc);
    DamageFromInitial(doc);
    RunTracks(Cleared(o), Text, doc, [], "");
    PrependNothing(TextMeaning(doc));
  }

  predicate CommentFreeTokens(tokens: seq<Token>) {
    forall i :: 0 <= i < |tokens| ==> tokens[i].rule != OpenComment
  }

  /** No comment marker is scanned. (`<%--` inside a code block is code.) */
  predicate CommentFree(doc: string) {
    CommentFreeTokens(Scan(Initial, doc))
  }

  lemma {:induction false} CommentFreeDamage(start: Start, blank: bool, s: string)
    requires start != Comment && CommentFreeTokens(Scan(start, s))
    ensures DamageOf(start, false, blank, s) == Damage(0, 0, 0)
    decreases |s|, start == Initial
  {
    hide Scan;
    if s == "" {
    } else {
      var token, rest := NextToken(start, s), s[Consumed(start, s)..];
      var next := Begin(start, token.rule);
      ScanStep(start, s, next, rest);
      assert Scan(start, s)[0] == token;
      assert forall i :: 0 <= i < |Scan(next, rest)| ==> Scan(next, rest)[i] == Scan(start, s)[i + 1];
      CommentFreeDamage(next, true, rest);
      CommentFreeDamage(next, false, rest);
    }
  }

  lemma CommentFreePrefix(start: Start, a: string, b: string)
    requires (a == "" || a[|a| - 1] == '\n') && CommentFreeTokens(Scan(start, a + b))
    ensures CommentFreeTokens(Scan(start, a))
  {
    hide Scan, FinalStart;
    ScanConcat(start, a, b);
    var all, tokens := Scan(start, a + b), Scan(start, a);
    assert forall i :: 0 <= i < |tokens| ==> tokens[i] == all[i];
  }

  /** What is compiled of a comment-free document, terminated or not, is its part up to the last line feed. */
  lemma CompileMeansFlushedPart(o: Output, doc: string)
    requires o.state == TextState
    requires CommentFree(doc)
    ensures Behaviour(Compiled(o, doc).text) == TextMeaning(Flushed(doc))
  {
    hide Scan, Compiled, Behaviour, TextMeaning, DamageOf, CommentFreeTokens;
    var a := Flushed(doc);
    TextIsFlushedPart(o, doc);
    assert doc == a + doc[|a|..];
    CommentFreePrefix(Initial, a, doc[|a|..]);
    CommentFreeDamage(Initial, true, a);
    CompilePreservesMeaning(o, a);
  }

  // ---- Conditions on the characters alone ----

  predicate HasNoRemarkMarker(doc: string) {
    forall i :: 0 <= i < |doc| ==> !OpensRemark(doc[i..])
  }

  predicate HasNoMarker(doc: string) {
    forall i :: 0 <= i < |doc| ==> !OpensBlock(doc[i..])
  }

  lemma {:induction false} NoRemarkTokens(start: Start, s: string)
    requires start != Initial && HasNoRemarkMarker(s)
    ensures CommentFreeTokens(Scan(start, s))
    decreases |s|
  {
    hide Scan, FinalStart;
    if s == "" {
      ScanNothing(start);
    } else {
      var next, rest := Begin(start, Next(start, s).0), s[Consumed(start, s)..];
      ScanStep(start, s, next, rest);
      assert s[0..] == s;
      forall i | 0 <= i < |rest|
        ensures !OpensRemark(rest[i..])
      {
        assert rest[i..] == s[Consumed(start, s) + i..];
      }
      NoRemarkTokens(next, rest);
    }
  }

  /** A document in which `<%--` does not occur is comment-free. */
  lemma NoMarkerNoComment(doc: string)
    requires HasNoRemarkMarker(doc)
    ensures CommentFree(doc)
  {
    NoRemarkTokens(Text, doc);
    if doc != "" {
      ScanFromInitial(doc);
    }
  }

  // ---- Templates that are only text: the emitted string, read character by character ----

  /** What a template without markers prints: CRLF becomes LF, the pairs `\n`, `\r`, `\t` disappear. */
  function Normalised(s: string): string
    decreases |s|
  {
    var eol := LineEndLength(s);
    if s == "" then ""
    else if eol != 0 then "\n" + Normalised(s[eol..])
    else if DroppedPair(s) then Normalised(s[2..])
    else [s[0]] + Normalised(s[1..])
  }

  function Prints(s: string): (events: seq<Event>)
    ensures |events| == |s|
  {
    seq(|s|, i requires 0 <= i < |s| => Print(s[i]))
  }

  lemma PrintsCons(c: char, rest: string)
    ensures Prepend([Print(c)], Some(Prints(rest))) == Some(Prints([c] + rest))
  {
    assert Prints([c] + rest) == [Print(c)] + Prints(rest);
  }

  lemma MarkerFreeTail(s: string, k: nat)
    requires HasNoMarker(s) && k <= |s|
    ensures HasNoMarker(s[k..])
  {
    forall i | 0 <= i < |s[k..]|
      ensures !OpensBlock(s[k..][i..])
    {
      assert s[k..][i..] == s[k + i..];
    }
  }

  lemma {:induction false} MarkerFreeMeaning(s: string)
    requires HasNoMarker(s)
    ensures TextMeaning(s) == Some(Prints(Normalised(s)))
    decreases |s|
  {
    if s == "" {
    } else {
      assert s[0..] == s;
      var eol := LineEndLength(s);
      if eol != 0 {
        MarkerFreeTail(s, eol);
        MarkerFreeMeaning(s[eol..]);
        PrintsCons('\n', Normalised(s[eol..]));
      } else if DroppedPair(s) {
        MarkerFreeTail(s, 2);
        MarkerFreeMeaning(s[2..]);
      } else {
        MarkerFreeTail(s, 1);
        MarkerFreeMeaning(s[1..]);
        PrintsCons(s[0], Normalised(s[1..]));
      }
    }
  }

  predicate AllEmitted(g: seq<Glyph>) {
    forall i :: 0 <= i < |g| ==> g[i].Emitted?
  }

  lemma {:induction false} MarkerFreeIsEmitted(o: Output, s: string)
    requires HasNoMarker(s) && o.state == TextState && AllEmitted(o.text) && AllEmitted(o.line)
    ensures AllEmitted(Ran(o, Scan(Text, s)).text)
    decreases |s|
  {
    if s == "" {
    } else {
      assert s[0..] == s;
      var rest := s[Consumed(Text, s)..];
      MarkerFreeTail(s, Consumed(Text, s));
      RanScan(o, Text, s);
      MarkerFreeIsEmitted(Acted(o, NextToken(Text, s)), rest);
    }
  }

  /** For a template without markers, the emitted string itself, lexed as Ruby character by character, prints
      exactly the normalised template (up to its last line feed). In particular every quote, hash and backslash
      of the template is escaped: the reader accepts none of them bare. */
  lemma TextRoundTrip(o: Output, doc: string)
    requires o.state == TextState
    requires HasNoMarker(doc)
    ensures StringBehaviour(Render(Compiled(o, doc).text)) == Some(Prints(Normalised(Flushed(doc))))
  {
    var a := Flushed(doc);
    assert forall i :: 0 <= i < |doc| ==> OpensRemark(doc[i..]) ==> OpensBlock(doc[i..]);
    NoMarkerNoComment(doc);
    CompileMeansFlushedPart(o, doc);
    forall i | 0 <= i < |a|
      ensures !OpensBlock(a[i..])
    {
      assert !OpensBlock(doc[i..]);
      assert forall j :: 0 <= j < |a[i..]| ==> a[i..][j] == doc[i..][j];
    }
    MarkerFreeMeaning(a);
    RanFromInitial(Cleared(o), doc);
    MarkerFreeIsEmitted(Cleared(o), doc);
    var text := Compiled(o, doc).text;
    assert Emit(Render(text)) == text;
  }

  // ---- Documents compile piecewise, and a parser can be used again ----

  /** A document that ends with a line feed leaves nothing on the line, whatever the states. */
  lemma {:induction false} LineFeedFlushes(o: Output, start: Start, s: string)
    requires start != Initial && s != "" && s[|s| - 1] == '\n'
    ensures Ran(o, Scan(start, s)).line == []
    decreases |s|
  {
    hide Acted, Next, Consumed;
    var next, rest := Begin(start, Next(start, s).0), s[Consumed(start, s)..];
    RanScan(o, start, s);
    LastToken(o, start, s);
    if rest == "" {
    } else {
      LineFeedFlushes(Acted(o, NextToken(start, s)), next, rest);
    }
  }

  /** If a document ends with a line feed and leaves scanner and parser in text, the text of a longer document
      is its text followed by the text of the rest. */
  lemma CompileConcat(o: Output, a: string, b: string)
    requires o.state == TextState
    requires a != "" && a[|a| - 1] == '\n'
    requires FinalStart(Initial, a) == Text && Ran(Cleared(o), Scan(Initial, a)).state == TextState
    ensures Render(Compiled(o, a + b).text) == Render(Compiled(o, a).text) + Render(Compiled(o, b).text)
  {
    ScanConcat(Initial, a, b);
    RanConcat(Cleared(o), Scan(Initial, a), Scan(Text, b));
    var mid := Ran(Cleared(o), Scan(Initial, a));
    RanFromInitial(Cleared(o), a);
    LineFeedFlushes(Cleared(o), Text, a);
    RanFromInitial(Cleared(o), b);
    assert mid.text + Cleared(o).text == mid.text;
    RanShift(mid, Cleared(o), Scan(Text, b), mid.text);
    RenderAppend(mid.text, Compiled(o, b).text);
  }

  /** The scanner's start condition and the parser's state agree. */
  predicate InStep(start: Start, state: State) {
    match start
    case Initial => state == TextState
    case Text => state == TextState
    case Code => state == CodeState || state == VarState
    case Comment => state == CommentState
  }

  lemma {:induction false} FinalInStep(o: Output, start: Start, s: string)
    requires InStep(start, o.state) && start != Comment && CommentFreeTokens(Scan(start, s))
    ensures InStep(FinalStart(start, s), Ran(o, Scan(start, s)).state)
    decreases |s|, start == Initial
  {
    if s == "" {
    } else {
      var next, rest := Begin(start, Next(start, s).0), s[Consumed(start, s)..];
      ScanStep(start, s, next, rest);
      RanScan(o, start, s);
      assert forall i :: 0 <= i < |Scan(next, rest)| ==> Scan(next, rest)[i] == Scan(start, s)[i + 1];
      FinalInStep(Acted(o, NextToken(start, s)), next, rest);
    }
  }

  /** For comment-free documents the scanner alone decides: back in TEXT means the parser is in text too. */
  lemma CompileConcatCommentFree(o: Output, a: string, b: string)
    requires o.state == TextState
    requires a != "" && a[|a| - 1] == '\n'
    requires CommentFree(a) && FinalStart(Initial, a) == Text
    ensures Render(Compiled(o, a + b).text) == Render(Compiled(o, a).text) + Render(Compiled(o, b).text)
  {
    FinalInStep(Cleared(o), Initial, a);
    CompileConcat(o, a, b);
  }

  /** A parser in text state compiles every document to the same text as a new parser does, and is in text state
      again afterwards: `init` leaves the counters alone, but they do not show in the text. */
  lemma ReuseIsSafe(o: Output, doc: string)
    requires o.state == TextState
    ensures Render(Compiled(o, doc).text) == Render(Compiled(FRESH, doc).text)
    ensures Compiled(o, doc).state == TextState
  {
    RanShift(Cleared(o), Cleared(FRESH), Scan(Initial, doc), []);
    var text := Compiled(FRESH, doc).text;
    assert [] + text == text;
  }

  // ---- Scanner and parser in step ----

  /** At every point of the run, the start condition and `_state` agree. */
  ghost predicate AlwaysInStep(o: Output, start: Start, s: string)
    decreases |s|, start == Initial
  {
    InStep(start, o.state) &&
    (s != "" ==>
       AlwaysInStep(Acted(o, NextToken(start, s)), Begin(start, Next(start, s).0), s[Consumed(start, s)..]))
  }

  predicate LeavesByDashes(tokens: seq<Token>) {
    exists i :: 0 <= i < |tokens| && tokens[i].rule == LeaveComment
  }

  /** They agree throughout exactly when no comment is closed by `--%>`, the one action that moves the scanner
      without telling the parser. */
  lemma {:induction false} InStepUnlessDashes(o: Output, start: Start, s: string)
    requires InStep(start, o.state)
    ensures AlwaysInStep(o, start, s) <==> !LeavesByDashes(Scan(start, s))
    decreases |s|, start == Initial
  {
    if s == "" {
    } else {
      var next, rest := Begin(start, Next(start, s).0), s[Consumed(start, s)..];
      var o' := Acted(o, NextToken(start, s));
      var tokens := Scan(next, rest);
      ScanStep(start, s, next, rest);
      assert Scan(start, s) == [NextToken(start, s)] + tokens;
      if Next(start, s).0 == LeaveComment {
        assert Scan(start, s)[0].rule == LeaveComment;
        assert !InStep(next, o'.state);
        assert !AlwaysInStep(o', next, rest);
      } else {
        InStepUnlessDashes(o', next, rest);
        if LeavesByDashes(tokens) {
          var i :| 0 <= i < |tokens| && tokens[i].rule == LeaveComment;
          assert Scan(start, s)[i + 1] == tokens[i];
        }
      }
    }
  }
}
