/** Line numbers: where the code of a template lands in the compiled program. */
module RhtmlLines {
  import opened RhtmlScanner
  import opened Substitution
  import opened RhtmlOutput
  import opened RhtmlMeaning
  import opened RhtmlTheorems

  function Newlines(g: seq<Glyph>): nat {
    if g == [] then 0 else Newlines(g[..|g| - 1]) + if g[|g| - 1].c == '\n' then 1 else 0
  }

  function LineFeeds(s: string): nat {
    if s == "" then 0 else (if s[0] == '\n' then 1 else 0) + LineFeeds(s[1..])
  }

  /** The parser's state after an action, from the rule alone. */
  function StateAfter(state: State, rule: Rule): State {
    match rule
    case OpenCode => CodeState
    case OpenExpr => VarState
    case CloseCode => TextState
    case OpenComment => CommentState
    case CloseComment => TextState
    case _ => state
  }

  /** The line ends that are given no line feed in the output: those inside `<%= %>`, and those the parser takes
      in comment state. */
  function JoinedEnds(start: Start, state: State, s: string): nat
    decreases |s|, start == Initial
  {
    if s == "" then 0
    else
      var rule := Next(start, s).0;
      (if rule == LineEnd && (state == VarState || state == CommentState) then 1 else 0) +
      JoinedEnds(Begin(start, rule), StateAfter(state, rule), s[Consumed(start, s)..])
  }

  /** The actions that copy a character of the template. */
  predicate CopiesCode(state: State, rule: Rule) {
    (rule == Char && state != TextState) || (rule == LineEnd && state == CodeState)
  }

  /** Some character is copied after a line end that was given no line feed. */
  predicate CodeAfterJoin(start: Start, state: State, s: string, joined: bool)
    decreases |s|, start == Initial
  {
    s != "" &&
    var rule := Next(start, s).0;
    var joins := rule == LineEnd && (state == VarState || state == CommentState);
    (CopiesCode(state, rule) && joined) ||
    CodeAfterJoin(Begin(start, rule), StateAfter(state, rule), s[Consumed(start, s)..], joined || joins)
  }

  /** Every copied character stands on the output line of its number in the template. */
  ghost predicate Placed(g: seq<Glyph>) {
    forall i :: 0 <= i < |g| && g[i].Copied? ==> g[i].line == 1 + Newlines(g[..i])
  }

  lemma {:induction false} NewlinesConcat(a: seq<Glyph>, b: seq<Glyph>)
    ensures Newlines(a + b) == Newlines(a) + Newlines(b)
    decreases |b|
  {
    if b == [] {
      assert a + b == a;
    } else {
      assert (a + b)[..|a + b| - 1] == a + b[..|b| - 1];
      NewlinesConcat(a, b[..|b| - 1]);
    }
  }

  lemma {:induction false} LineFeedsConcat(a: string, b: string)
    ensures LineFeeds(a + b) == LineFeeds(a) + LineFeeds(b)
    decreases |a|
  {
    if a == "" {
      assert a + b == b;
    } else {
      assert (a + b)[1..] == a[1..] + b;
      LineFeedsConcat(a[1..], b);
    }
  }

  lemma {:induction false} NoNewlines(g: seq<Glyph>)
    requires forall i :: 0 <= i < |g| ==> g[i].c != '\n'
    ensures Newlines(g) == 0
    decreases |g|
  {
    if g == [] {
    } else {
      NoNewlines(g[..|g| - 1]);
    }
  }

  lemma {:induction false} NoLineFeeds(s: string)
    requires '\n' !in s
    ensures LineFeeds(s) == 0
    decreases |s|
  {
    if s == "" {
    } else {
      NoLineFeeds(s[1..]);
    }
  }

  /** A lexeme holds one line feed if it is a line end, none otherwise. */
  lemma LexemeLineFeeds(start: Start, s: string)
    requires s != "" && start != Initial
    ensures LineFeeds(s[..Consumed(start, s)]) == if Next(start, s).0 == LineEnd then 1 else 0
  {
    var lexeme := s[..Consumed(start, s)];
    if Next(start, s).0 == LineEnd {
      if |lexeme| == 2 {
        assert lexeme[1..] == "\n" && "\n"[1..] == "";
      } else {
        assert lexeme[1..] == "";
      }
    } else {
      NoLineFeeds(lexeme);
    }
  }

  /** What is put behind everything emitted so far by one action: made-up characters, or one copied character
      marked with the current line. */
  predicate Addition(more: seq<Glyph>, line: int) {
    AllEmitted(more) || (|more| == 1 && more[0].Copied? && more[0].line == line)
  }

  /** What `change` puts on the line. */
  function ChangeAdds(o: Output): (more: seq<Glyph>)
    ensures forall s :: Changed(o, s).line == o.line + more
    ensures AllEmitted(more) && forall i :: 0 <= i < |more| ==> more[i].c != '\n'
  {
    if o.state == CommentState || (o.state == TextState && o.line == []) then []
    else if o.state == TextState then Emit("\"; ")
    else (if o.line != [] then Emit("; ") else []) + Emit("print \"")
  }

  /** What a token puts behind everything emitted so far. */
  function TokenAddition(o: Output, token: Token): seq<Glyph> {
    var opening := if o.line == [] then Emit("print \"") else [];
    match token.rule
    case Char => if o.state == TextState then opening + Emit(Escape(token.lexeme)) else Copy(token.lexeme, o.current)
    case LineEnd =>
      if o.state == TextState then opening + Emit("\\n\"\n")
      else if o.state == CodeState then Copy("\n", o.current)
      else []
    case CloseCode =>
      if o.state == VarState then Emit("))") + ChangeAdds(Appended(o, "))")) else ChangeAdds(o)
    case OpenExpr => ChangeAdds(o) + Emit("print((")
    case OpenCode => ChangeAdds(o)
    case OpenComment => ChangeAdds(o)
    case CloseComment => ChangeAdds(o)
    case _ => []
  }

  lemma Behind(o: Output, p: Output, more: seq<Glyph>)
    requires (p.text == o.text && p.line == o.line + more) || (p.text == o.text + (o.line + more) && p.line == [])
    ensures Whole(p) == Whole(o) + more
  {
  }

  lemma TokenAdds(o: Output, token: Token)
    ensures Whole(Acted(o, token)) == Whole(o) + TokenAddition(o, token)
  {
    var o', more := Acted(o, token), TokenAddition(o, token);
    assert o.line == [] ==> o.line + more == more;
    match token.rule {
      case Char => assert o'.line == o.line + more;
      case LineEnd => assert EndedLine(o) == o.line + more;
      case CloseCode =>
        assert o'.line == o.line + more by {
          if o.state == VarState { assert o'.line == (o.line + Emit("))")) + ChangeAdds(Appended(o, "))")); }
        }
      case OpenExpr => assert o'.line == o.line + more;
      case OpenCode => assert o'.line == o.line + more;
      case OpenComment => assert o'.line == o.line + more;
      case CloseComment => assert o'.line == o.line + more;
      case _ => assert o'.line == o.line + more;
    }
    Behind(o, o', more);
  }

  lemma CharShape(o: Output, token: Token)
    requires token.rule == Char && |token.lexeme| == 1 && token.lexeme[0] != '\n'
    ensures var more := TokenAddition(o, token);
            && Addition(more, o.current)
            && (AllEmitted(more) <==> o.state == TextState)
            && forall i :: 0 <= i < |more| ==> more[i].c != '\n'
  {
    var c, more := token.lexeme[0], TokenAddition(o, token);
    assert o.state != TextState ==> more[0].Copied?;
    assert Escape(token.lexeme) == EscapeChar(c) by { assert EscapeChar(c) + "" == EscapeChar(c); }
  }

  lemma LineEndShape(o: Output, token: Token)
    requires token.rule == LineEnd
    ensures Addition(TokenAddition(o, token), o.current)
    ensures AllEmitted(TokenAddition(o, token)) <==> o.state != CodeState
    ensures Newlines(TokenAddition(o, token)) == if o.state == TextState || o.state == CodeState then 1 else 0
  {
    var more := TokenAddition(o, token);
    if o.state == TextState {
      var front := (if o.line == [] then Emit("print \"") else []) + Emit("\\n\"");
      NoNewlines(front);
      assert Emit("\\n\"\n") == Emit("\\n\"") + [Emitted('\n')];
      assert more == front + [Emitted('\n')];
      assert more[..|more| - 1] == front;
    } else if o.state == CodeState {
      assert more[..0] == [] && more[0].Copied?;
    }
  }

  /** Nothing but a line end taken in text or code adds a line feed. */
  lemma AdditionShape(o: Output, token: Token)
    requires token.rule == Char ==> |token.lexeme| == 1 && token.lexeme[0] != '\n'
    ensures Addition(TokenAddition(o, token), o.current)
    ensures AllEmitted(TokenAddition(o, token)) <==> !CopiesCode(o.state, token.rule)
    ensures Newlines(TokenAddition(o, token)) ==
      if token.rule == LineEnd && (o.state == TextState || o.state == CodeState) then 1 else 0
  {
    if token.rule == LineEnd {
      LineEndShape(o, token);
    } else {
      if token.rule == Char {
        CharShape(o, token);
      }
      NoNewlines(TokenAddition(o, token));
    }
  }

  /** An addition that comes when `joined` line ends have been given no line feed. */
  lemma PlacedMore(g: seq<Glyph>, more: seq<Glyph>, joined: nat)
    requires Addition(more, 1 + Newlines(g) + joined)
    ensures Placed(g + more) <==> Placed(g) && (AllEmitted(more) || joined == 0)
  {
    var all := g + more;
    assert forall i :: 0 <= i < |g| ==> all[i] == g[i] && all[..i] == g[..i];
    if !AllEmitted(more) {
      assert all[|g|] == more[0] && all[..|g|] == g;
    }
  }

  lemma LexemeCut(start: Start, s: string)
    requires s != "" && start != Initial
    ensures var token := NextToken(start, s);
            LineFeeds(s) == (if token.rule == LineEnd then 1 else 0) + LineFeeds(s[Consumed(start, s)..]) &&
            (token.rule == Char ==> |token.lexeme| == 1 && token.lexeme[0] != '\n')
  {
    var n := Consumed(start, s);
    LexemeLineFeeds(start, s);
    LineFeedsConcat(s[..n], s[n..]);
    assert s == s[..n] + s[n..];
  }

  lemma OutputLines(o: Output, token: Token, joined: nat)
    requires token.rule == Char ==> |token.lexeme| == 1 && token.lexeme[0] != '\n'
    requires o.current == 1 + Newlines(Whole(o)) + joined
    ensures var g := Whole(Acted(o, token));
            Newlines(g) == Newlines(Whole(o)) +
              (if token.rule == LineEnd && (o.state == TextState || o.state == CodeState) then 1 else 0) &&
            (Placed(g) <==> Placed(Whole(o)) && !(CopiesCode(o.state, token.rule) && joined > 0))
  {
    var more := TokenAddition(o, token);
    TokenAdds(o, token);
    AdditionShape(o, token);
    NewlinesConcat(Whole(o), more);
    PlacedMore(Whole(o), more, joined);
  }

  lemma TokenLines(o: Output, start: Start, s: string, joined: nat)
    requires s != "" && start != Initial && o.current == 1 + Newlines(Whole(o)) + joined
    ensures var token, rest := NextToken(start, s), s[Consumed(start, s)..];
            var o' := Acted(o, token);
            var lost := if token.rule == LineEnd && (o.state == VarState || o.state == CommentState) then 1 else 0;
            && o'.current + LineFeeds(rest) == o.current + LineFeeds(s)
            && o'.current == 1 + Newlines(Whole(o')) + joined + lost
            && (Placed(Whole(o')) <==> Placed(Whole(o)) && !(CopiesCode(o.state, token.rule) && joined > 0))
            && o'.state == StateAfter(o.state, token.rule)
  {
    LexemeCut(start, s);
    OutputLines(o, NextToken(start, s), joined);
  }

  lemma {:induction false} RunLines(o: Output, start: Start, s: string, joined: nat)
    requires start != Initial && o.current == 1 + Newlines(Whole(o)) + joined
    ensures var o' := Ran(o, Scan(start, s));
            var joined' := joined + JoinedEnds(start, o.state, s);
            && o'.current == o.current + LineFeeds(s)
            && o'.current == 1 + Newlines(Whole(o')) + joined'
            && (Placed(Whole(o')) <==> Placed(Whole(o)) && !CodeAfterJoin(start, o.state, s, joined > 0))
    decreases |s|
  {
    if s == "" {
    } else {
      var token, rest := NextToken(start, s), s[Consumed(start, s)..];
      var o' := Acted(o, token);
      RanScan(o, start, s);
      TokenLines(o, start, s, joined);
      var lost := if token.rule == LineEnd && (o.state == VarState || o.state == CommentState) then 1 else 0;
      RunLines(o', Begin(start, token.rule), rest, joined + lost);
    }
  }

  /** For a new parser and every document that ends with a line feed: `_current_line` is one more than the line
      feeds of the document; the text falls short of them by the line ends inside expression blocks and comments; and
      each piece of code is on the line of the output that has its number exactly when none comes after such a line
      end. */
  lemma LineFidelity(doc: string)
    requires doc == "" || doc[|doc| - 1] == '\n'
    ensures var o := Compiled(FRESH, doc);
            && o.current == 1 + LineFeeds(doc)
            && Newlines(o.text) + JoinedEnds(Text, TextState, doc) == LineFeeds(doc)
            && (Placed(o.text) <==> !CodeAfterJoin(Text, TextState, doc, false))
  {
    RanFromInitial(FRESH, doc);
    assert Cleared(FRESH) == FRESH;
    RunLines(FRESH, Text, doc, 0);
    if doc != "" {
      LineFeedFlushes(FRESH, Text, doc);
    }
    assert Whole(Ran(FRESH, Scan(Text, doc))) == Compiled(FRESH, doc).text;
  }
}
