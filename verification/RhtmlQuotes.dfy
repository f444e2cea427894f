/** Comments and quotes: exactly which comments change what a document does.

    A comment closed by `%>` after something on the same line leaves the parser in text state with the literal closed.
    From there on opening and closing quotes have changed places, until a second such comment changes them back; by
    then the program has printed too little. */
module RhtmlQuotes {
  import opened RhtmlScanner
  import opened Substitution
  import opened RhtmlOutput
  import opened RhtmlTemplate
  import opened RubyReader
  import opened RhtmlMeaning
  import opened RhtmlTheorems
  import opened RhtmlComments

  // ---- A count that tells programs apart ----

  function Mark(e: Event): nat {
    if e == Print('p') || e.Show? then 1 else 0
  }

  /** The letters `p` printed and the expressions shown. A literal opened by the parser has one `p` in front of it,
      so text that is read as program text has to bring its own. */
  function Marks(events: seq<Event>): nat {
    if events == [] then 0 else Marks(events[..|events| - 1]) + Mark(events[|events| - 1])
  }

  lemma MarksSnoc(events: seq<Event>, e: Event)
    ensures Marks(events + [e]) == Marks(events) + Mark(e)
  {
    assert (events + [e])[..|events|] == events;
  }

  lemma {:induction false} MarksConcat(a: seq<Event>, b: seq<Event>)
    ensures Marks(a + b) == Marks(a) + Marks(b)
    decreases |b|
  {
    if b == [] {
      assert a + b == a;
    } else {
      var front, last := b[..|b| - 1], b[|b| - 1];
      assert (a + b)[..|a + b| - 1] == a + front;
      MarksConcat(a, front);
    }
  }

  // ---- The reader, out of step with the parser ----

  /** Characters that mean nothing special in a literal. */
  predicate IsPlain(t: string) {
    '\"' !in t && '\\' !in t && '#' !in t
  }

  function LettersP(t: string): nat {
    if t == "" then 0 else (if t[0] == 'p' then 1 else 0) + LettersP(t[1..])
  }

  /** The parser's own words, read inside a literal, are printed. */
  lemma {:induction false} FeedPlain(r: Reader, t: string)
    requires r.mode == Literal && IsPlain(t)
    ensures var r' := Feed(r, Emit(t));
            r'.mode == Literal && Marks(r'.events) == Marks(r.events) + LettersP(t)
    decreases |t|
  {
    if t == "" {
      assert Emit(t) == [];
    } else {
      FeedEmit(r, t);
      MarksSnoc(r.events, Print(t[0]));
      FeedPlain(Step(r, Emitted(t[0])), t[1..]);
    }
  }

  lemma FeedSemicolon(r: Reader)
    requires r.mode == Literal
    ensures var r' := Feed(r, Emit("; ")); r'.mode == Literal && Marks(r'.events) == Marks(r.events)
  {
    FeedPlain(r, "; ");
    assert "; "[1..] == " " && " "[1..] == "";
  }

  lemma FeedParentheses(r: Reader)
    requires r.mode == Literal
    ensures var r' := Feed(r, Emit("))")); r'.mode == Literal && Marks(r'.events) == Marks(r.events)
  {
    FeedPlain(r, "))");
    assert "))"[1..] == ")" && ")"[1..] == "";
  }

  lemma {:induction false} NoLetterP(t: string)
    requires 'p' !in t
    ensures LettersP(t) == 0
    decreases |t|
  {
    if t == "" {
    } else {
      NoLetterP(t[1..]);
    }
  }

  lemma OneLetterP(rest: string)
    requires 'p' !in rest
    ensures LettersP("p" + rest) == 1
  {
    assert ("p" + rest)[1..] == rest;
    NoLetterP(rest);
  }

  lemma {:induction false} BrokenStays(r: Reader, g: seq<Glyph>)
    requires r.mode == Broken
    ensures Feed(r, g) == r
    decreases |g|
  {
    if g == [] {
    } else {
      BrokenStays(r, g[1..]);
    }
  }

  /** `print "` inside a literal: the word is printed, and the literal ends. */
  lemma FeedPrintInLiteral(r: Reader)
    requires r.mode == Literal
    ensures var r' := Feed(r, Emit("print \""));
            r'.mode == Closed && Marks(r'.events) == Marks(r.events) + 1
  {
    hide Feed, LettersP;
    hide Marks, Trail;
    FeedPlain(r, "print ");
    assert "print " == "p" + "rint ";
    OneLetterP("rint ");
    assert Emit("print \"") == Emit("print ") + Emit("\"");
    FeedConcat(r, Emit("print "), Emit("\""));
    FeedEmit1(Feed(r, Emit("print ")), "\"");
  }

  predicate Outside(mode: Mode) {
    mode != Literal && mode != Escaping && !mode.Fragment?
  }

  /** In the middle of a `print` that comes from the template's text. */
  function Owed(mode: Mode): nat {
    if mode == Statement || mode == Closed then 0 else 1
  }

  ghost predicate Behind(o: Output, r: Reader, m: nat) {
    r.mode == Broken ||
    match o.state
    case TextState =>
      if o.line == [] then r.mode == Literal && Marks(r.events) + 1 <= m
      else Outside(r.mode) && Marks(r.events) + Owed(r.mode) <= m
    case VarState => r.mode == Literal && Marks(r.events) <= m
    case _ => r.mode == Literal && Marks(r.events) + 1 <= m
  }

  /** The reader stands outside a literal exactly where the parser takes one to be open. `meant` is what the
      template has said so far; the program cannot have caught up with its marks. */
  ghost predicate OutOfPhase(o: Output, start: Start, meant: seq<Event>, code: string) {
    && Aligned(start, o.state) && (start != Code ==> code == "")
    && Behind(o, Feed(START, Whole(o)), Marks(meant))
  }

  /** A character of text read as program text. */
  lemma OutsideChar(r: Reader, c: char, m: nat)
    requires Outside(r.mode) && r.mode != Broken && Marks(r.events) + Owed(r.mode) <= m
    ensures var r' := Feed(r, Emit(EscapeChar(c)));
            r'.mode == Broken || (Outside(r'.mode) && Marks(r'.events) + Owed(r'.mode) <= m + Mark(Print(c)))
  {
    hide Marks;
    FeedEmit(r, EscapeChar(c));
    var r1 := Step(r, Emitted(EscapeChar(c)[0]));
    if |EscapeChar(c)| == 2 {
      assert r1.mode == Broken;
      BrokenStays(r1, Emit(EscapeChar(c)[1..]));
    } else {
      assert Emit(EscapeChar(c)[1..]) == [];
      if r.mode.Closing? {
        MarksSnoc(r.events, Show(r.mode.expr));
      }
    }
  }

  /** The end of a printed line read as program text. */
  lemma OutsideLineEnd(r: Reader)
    requires Outside(r.mode)
    ensures Feed(r, Emit("\\n\"\n")).mode == Broken
  {
    FeedEmit(r, "\\n\"\n");
    BrokenStays(Step(r, Emitted('\\')), Emit("\\n\"\n"[1..]));
  }

  /** The closing quote read as an opening one: only after the word `print` from the template's own text. */
  lemma OutsideClose(r: Reader)
    requires Outside(r.mode)
    ensures var r' := Feed(r, Emit("\"; "));
            r'.mode == Broken || (r'.mode == Literal && Owed(r.mode) == 1 && Marks(r'.events) == Marks(r.events))
  {
    hide Marks;
    FeedEmit(r, "\"; ");
    var r1 := Step(r, Emitted('\"'));
    assert "\"; "[1..] == "; ";
    if r1.mode == Literal {
      FeedSemicolon(r1);
    } else {
      BrokenStays(r1, Emit("; "));
    }
  }

  // ---- One token out of phase ----

  /** Nothing emitted is taken back. */
  lemma WholeGrows(o: Output, token: Token)
    ensures Whole(o) <= Whole(Acted(o, token))
  {
    hide Feed;
    var after := Acted(o, token);
    match token.rule {
      case LineEnd => assert Whole(after) == o.text + EndedLine(o) && o.line <= EndedLine(o);
      case _ => assert after.text == o.text && o.line <= after.line;
    }
  }

  lemma BrokenToken(o: Output, token: Token)
    requires Feed(START, Whole(o)).mode == Broken
    ensures Feed(START, Whole(Acted(o, token))).mode == Broken
  {
    var after := Whole(Acted(o, token));
    WholeGrows(o, token);
    var more := after[|Whole(o)|..];
    assert after == Whole(o) + more;
    FeedConcat(START, Whole(o), more);
    BrokenStays(Feed(START, Whole(o)), more);
  }

  lemma OutTextStart(o: Output, m: nat)
    requires o.state == TextState && Behind(o, Feed(START, Whole(o)), m) && Feed(START, Whole(o)).mode != Broken
    ensures var r := Feed(START, Whole(o.(line := if o.line == [] then Emit("print \"") else o.line)));
            Outside(r.mode) && r.mode != Broken && Marks(r.events) + Owed(r.mode) <= m
  {
    hide Marks, Feed, Whole;
    if o.line == [] {
      assert o.line + Emit("print \"") == Emit("print \"");
      FeedMore(o, Emit("print \""));
      FeedPrintInLiteral(Feed(START, Whole(o)));
    } else {
      assert o.(line := o.line) == o;
    }
  }

  lemma OutTextChar(o: Output, c: char, m: nat)
    requires o.state == TextState && Behind(o, Feed(START, Whole(o)), m) && Feed(START, Whole(o)).mode != Broken
    ensures var o' := ReadIn(o, [c]); Behind(o', Feed(START, Whole(o')), m + Mark(Print(c)))
  {
    hide Marks, Feed, Whole;
    var p := o.(line := if o.line == [] then Emit("print \"") else o.line);
    assert Escape([c]) == EscapeChar(c) by { assert EscapeChar(c) + "" == EscapeChar(c); }
    OutTextStart(o, m);
    FeedMore(p, Emit(EscapeChar(c)));
    OutsideChar(Feed(START, Whole(p)), c, m);
    assert ReadIn(o, [c]) == p.(line := p.line + Emit(EscapeChar(c)));
    assert |p.line + Emit(EscapeChar(c))| > 0;
  }

  lemma OutTextLineEnd(o: Output)
    requires o.state == TextState
    requires var r := Feed(START, Whole(o)); if o.line == [] then r.mode == Literal else Outside(r.mode)
    ensures Feed(START, Whole(LineEnded(o))).mode == Broken
  {
    hide Marks;
    var p := o.(line := if o.line == [] then Emit("print \"") else o.line);
    if o.line == [] {
      assert o.line + Emit("print \"") == Emit("print \"");
      FeedMore(o, Emit("print \""));
      FeedPrintInLiteral(Feed(START, Whole(o)));
    }
    FeedMore(p, Emit("\\n\"\n"));
    OutsideLineEnd(Feed(START, Whole(p)));
    assert Whole(LineEnded(o)) == Whole(p.(line := p.line + Emit("\\n\"\n")));
  }

  lemma OutOpen(o: Output, s: State, m: nat)
    requires o.state == TextState && Behind(o, Feed(START, Whole(o)), m)
    ensures var r' := Feed(START, Whole(Changed(o, s)));
            r'.mode == Broken || (r'.mode == Literal && Marks(r'.events) + 1 <= m)
  {
    hide Marks;
    var r := Feed(START, Whole(o));
    if o.line != [] {
      FeedMore(o, Emit("\"; "));
      if r.mode == Broken {
        BrokenStays(r, Emit("\"; "));
      } else {
        OutsideClose(r);
      }
    }
  }

  /** `print((` inside a literal. */
  lemma OutExpression(p: Output, m: nat)
    requires var r := Feed(START, Whole(p)); r.mode == Broken || (r.mode == Literal && Marks(r.events) + 1 <= m)
    ensures var r' := Feed(START, Whole(Appended(p, "print((")));
            r'.mode == Broken || (r'.mode == Literal && Marks(r'.events) <= m)
  {
    hide Feed, LettersP, Whole;
    hide Marks;
    var r := Feed(START, Whole(p));
    FeedMore(p, Emit("print(("));
    if r.mode == Broken {
      BrokenStays(r, Emit("print(("));
    } else {
      FeedPlain(r, "print((");
      assert "print((" == "p" + "rint((";
      OneLetterP("rint((");
    }
  }

  /** A copied character inside a literal. */
  lemma OutCopy(o: Output, c: char)
    requires Feed(START, Whole(o)).mode == Literal
    ensures var r, r' := Feed(START, Whole(o)), Feed(START, Whole(o.(line := o.line + Copy([c], o.current))));
            r'.mode == Broken || (r'.mode == Literal && Marks(r'.events) == Marks(r.events))
  {
    var r := Feed(START, Whole(o));
    FeedMore(o, Copy([c], o.current));
    FeedCopy1(r, [c], o.current);
    MarksSnoc(r.events, Print(c));
  }

  lemma OutClose(o: Output)
    requires (o.state == CodeState || o.state == VarState) && Feed(START, Whole(o)).mode == Literal
    ensures var p := Changed(if o.state == VarState then Appended(o, "))") else o, TextState);
            var r, r' := Feed(START, Whole(o)), Feed(START, Whole(p));
            p.line != [] && r'.mode == Closed && Marks(r'.events) == Marks(r.events) + 1
  {
    hide Marks;
    var p0 := if o.state == VarState then Appended(o, "))") else o;
    FeedMore(o, Emit("))"));
    FeedParentheses(Feed(START, Whole(o)));
    var p1 := if p0.line != [] then p0.(line := p0.line + Emit("; ")) else p0;
    FeedMore(p0, Emit("; "));
    FeedSemicolon(Feed(START, Whole(p0)));
    FeedMore(p1, Emit("print \""));
    FeedPrintInLiteral(Feed(START, Whole(p1)));
    assert Changed(p0, TextState).line == p1.line + Emit("print \"");
    assert |Emit("print \"")| == 7;
  }

  lemma MarksOfOne(e: Event)
    ensures Marks([e]) == Mark(e)
  {
    MarksSnoc([], e);
    assert [] + [e] == [e];
  }

  /** The marks a token is meant to make. */
  lemma MarksOfToken(o: Output, start: Start, s: string, code: string)
    requires s != "" && Aligned(start, o.state)
    ensures Marks(TokenEvents(o, start, s, code)) ==
      if Next(start, s).0 == Char && start == Text then Mark(Print(s[0]))
      else if Next(start, s).0 == CloseCode && o.state == VarState then 1
      else 0
  {
    MarksOfOne(Print(s[0]));
    MarksOfOne(Print('\n'));
    MarksOfOne(Show(code));
    MarksOfOne(Execute(Trail(Lead(code))));
  }

  lemma OutTextOpenExpression(o: Output, m: nat)
    requires o.state == TextState && Behind(o, Feed(START, Whole(o)), m)
    ensures var o' := Appended(Changed(o, VarState), "print(("); Behind(o', Feed(START, Whole(o')), m)
  {
    hide Feed, Whole, Marks;
    OutOpen(o, VarState, m);
    OutExpression(Changed(o, VarState), m);
  }

  lemma OutTextOpen(o: Output, s: State, m: nat)
    requires o.state == TextState && Behind(o, Feed(START, Whole(o)), m) && (s == CodeState || s == CommentState)
    ensures var o' := Changed(o, s); Behind(o', Feed(START, Whole(o')), m)
  {
    hide Feed, Whole, Marks;
    OutOpen(o, s, m);
  }

  lemma OutTextEnd(o: Output, m: nat)
    requires o.state == TextState && Behind(o, Feed(START, Whole(o)), m) && Feed(START, Whole(o)).mode != Broken
    ensures var o' := LineEnded(o); Behind(o', Feed(START, Whole(o')), m)
  {
    hide Feed, Whole, Marks;
    OutTextLineEnd(o);
  }

  lemma OutText(o: Output, s: string, m: nat)
    requires s != "" && o.state == TextState && Behind(o, Feed(START, Whole(o)), m)
    requires Feed(START, Whole(o)).mode != Broken
    ensures var o' := Acted(o, NextToken(Text, s));
            Behind(o', Feed(START, Whole(o')), m + Marks(TokenEvents(o, Text, s, "")))
  {
    hide Feed, Whole, Marks, Behind, Changed, Appended, ReadIn, LineEnded, TokenEvents;
    MarksOfToken(o, Text, s, "");
    match Next(Text, s).0 {
      case Char =>
        OutTextChar(o, s[0], m);
        assert s[..1] == [s[0]];
      case LineEnd => OutTextEnd(o, m);
      case OpenCode => OutTextOpen(o, CodeState, m);
      case OpenComment => OutTextOpen(o, CommentState, m);
      case OpenExpr => OutTextOpenExpression(o, m);
      case _ =>
    }
  }

  lemma OutCodeChar(o: Output, c: char, m: nat)
    requires o.state == CodeState || o.state == VarState || o.state == CommentState
    requires Behind(o, Feed(START, Whole(o)), m) && Feed(START, Whole(o)).mode != Broken
    ensures var o' := ReadIn(o, [c]); Behind(o', Feed(START, Whole(o')), m)
  {
    hide Feed, Marks, Whole;
    OutCopy(o, c);
  }

  lemma OutCodeLineEnd(o: Output, m: nat)
    requires o.state == CodeState || o.state == VarState || o.state == CommentState
    requires Behind(o, Feed(START, Whole(o)), m) && Feed(START, Whole(o)).mode != Broken
    ensures var o' := LineEnded(o); Behind(o', Feed(START, Whole(o')), m)
  {
    hide Feed, Marks;
    assert Whole(LineEnded(o)) == o.text + EndedLine(o);
    OutCopy(o, '\n');
  }

  lemma OutCodeClose(o: Output, m: nat)
    requires o.state == CodeState || o.state == VarState
    requires Behind(o, Feed(START, Whole(o)), m) && Feed(START, Whole(o)).mode != Broken
    ensures var o' := Changed(if o.state == VarState then Appended(o, "))") else o, TextState);
            Behind(o', Feed(START, Whole(o')), m + if o.state == VarState then 1 else 0)
  {
    hide Feed, Marks, Whole, Appended;
    OutClose(o);
    assert Changed(if o.state == VarState then Appended(o, "))") else o, TextState).state == TextState;
  }

  lemma OutCode(o: Output, s: string, m: nat, code: string)
    requires s != "" && (o.state == CodeState || o.state == VarState)
    requires Behind(o, Feed(START, Whole(o)), m) && Feed(START, Whole(o)).mode != Broken
    ensures var o' := Acted(o, NextToken(Code, s));
            Behind(o', Feed(START, Whole(o')), m + Marks(TokenEvents(o, Code, s, code)))
  {
    hide Feed, Marks, Whole, ReadIn, LineEnded, Changed, Appended;
    MarksOfToken(o, Code, s, code);
    match Next(Code, s).0 {
      case Char =>
        assert s[..1] == [s[0]];
        OutCodeChar(o, s[0], m);
      case LineEnd => OutCodeLineEnd(o, m);
      case CloseCode => OutCodeClose(o, m);
      case _ =>
    }
  }

  lemma CommentLeaves(o: Output, s: State)
    requires o.state == CommentState
    ensures Whole(Changed(o, s)) == Whole(o) && Changed(o, s).line == o.line
  {
  }

  /** While the parser is in comment state; whatever the comment holds that is not idle breaks the program. */
  lemma OutComment(o: Output, start: Start, s: string, m: nat)
    requires s != "" && o.state == CommentState && Aligned(start, o.state)
    requires Behind(o, Feed(START, Whole(o)), m) && Feed(START, Whole(o)).mode != Broken
    requires !(Next(start, s).0 == CloseComment && o.line != [])
    ensures var o' := Acted(o, NextToken(start, s));
            Behind(o', Feed(START, Whole(o')), m + Marks(TokenEvents(o, start, s, "")))
  {
    hide Feed, Marks, Whole, ReadIn, LineEnded;
    MarksOfToken(o, start, s, "");
    match Next(start, s).0 {
      case Char =>
        assert s[..1] == [s[0]];
        OutCodeChar(o, s[0], m);
      case LineEnd => OutCodeLineEnd(o, m);
      case OpenExpr =>
        CommentLeaves(o, VarState);
        OutExpression(Changed(o, VarState), m);
      case OpenCode => CommentLeaves(o, CodeState);
      case OpenComment => CommentLeaves(o, CommentState);
      case CloseComment => CommentLeaves(o, TextState);
      case _ =>
    }
  }

  lemma BrokenIsBehind(o: Output, m: nat)
    requires Feed(START, Whole(o)).mode == Broken
    ensures Behind(o, Feed(START, Whole(o)), m)
  {
  }

  lemma OutToken(o: Output, start: Start, s: string, meant: seq<Event>, code: string)
    requires s != "" && OutOfPhase(o, start, meant, code)
    requires !(Next(start, s).0 == CloseComment && o.line != [])
    ensures OutOfPhase(Acted(o, NextToken(start, s)), Begin(start, Next(start, s).0),
                       meant + TokenEvents(o, start, s, code), TokenCode(o, start, s, code))
  {
    hide Feed, Whole, Marks, Behind;
    MeaningStep(o, start, s, code);
    MarksConcat(meant, TokenEvents(o, start, s, code));
    if Feed(START, Whole(o)).mode == Broken {
      BrokenToken(o, NextToken(start, s));
      BrokenIsBehind(Acted(o, NextToken(start, s)), Marks(meant + TokenEvents(o, start, s, code)));
    } else if o.state == CommentState {
      OutComment(o, start, s, Marks(meant));
    } else if start == Text {
      OutText(o, s, Marks(meant));
    } else {
      OutCode(o, s, Marks(meant), code);
    }
  }

  // ---- Whole documents ----

  ghost predicate InPhase(o: Output, start: Start, meant: seq<Event>, code: string) {
    var done := Feed(START, Whole(o)).events;
    Tracks(o, start, done, code) && Marks(done) <= Marks(meant)
  }

  /** In phase, with no more marks than were meant, or out of phase. */
  ghost predicate Phased(o: Output, start: Start, meant: seq<Event>, code: string) {
    InPhase(o, start, meant, code) || OutOfPhase(o, start, meant, code)
  }

  /** The program can no longer catch up with what was meant. */
  ghost predicate Late(o: Output, start: Start, meant: seq<Event>, code: string) {
    OutOfPhase(o, start, meant, code) || Marks(Feed(START, Whole(o)).events) < Marks(meant)
  }

  /** One such comment takes the parser out of phase. Another one puts the quotes right, but by then the program has
      fallen behind. */
  lemma PhaseChange(o: Output, start: Start, s: string, meant: seq<Event>, code: string)
    requires s != "" && Phased(o, start, meant, code)
    requires Next(start, s).0 == CloseComment && o.line != []
    ensures var o' := Acted(o, NextToken(start, s));
            Phased(o', Text, meant, "") && Late(o', Text, meant, "")
  {
    hide Marks;
    assert Whole(Acted(o, NextToken(start, s))) == Whole(o);
  }

  /** One token: where in phase the parser was it is, and late it stays. */
  lemma PhaseStep(o: Output, start: Start, s: string, meant: seq<Event>, code: string)
    requires s != "" && Phased(o, start, meant, code)
    requires !(Next(start, s).0 == Char && o.state == CommentState && !Idle(s[0]))
    ensures var o', next := Acted(o, NextToken(start, s)), Begin(start, Next(start, s).0);
            var meant', code' := meant + TokenEvents(o, start, s, code), TokenCode(o, start, s, code);
            && Phased(o', next, meant', code')
            && (Late(o, start, meant, code) || (Next(start, s).0 == CloseComment && o.line != []) ==>
                Late(o', next, meant', code'))
  {
    hide Feed, Whole, Marks, Behind;
    var events := TokenEvents(o, start, s, code);
    if Next(start, s).0 == CloseComment && o.line != [] {
      PhaseChange(o, start, s, meant, code);
      assert meant + [] == meant;
    } else if OutOfPhase(o, start, meant, code) {
      OutToken(o, start, s, meant, code);
    } else {
      var done := Feed(START, Whole(o)).events;
      TokenTracks(o, start, s, done, code);
      MarksConcat(done, events);
      MarksConcat(meant, events);
      assert done + [] == done;
    }
  }

  lemma PhasedAligns(o: Output, start: Start, meant: seq<Event>, code: string)
    requires Phased(o, start, meant, code)
    ensures Aligned(start, o.state) && (start != Code ==> code == "")
  {
  }

  /** What the program does, if it is complete, falls short of what was meant in all. */
  ghost predicate FallsShort(o: Output, start: Start, s: string, meant: seq<Event>, code: string) {
    var result, rest := Behaviour(Ran(o, Scan(start, s)).text), RestMeaning(o, start, s, code);
    result.Some? && rest.Some? ==> Marks(result.value) < Marks(meant + rest.value)
  }

  /** At the end of the input a literal is left open, or the marks missing are missing. */
  lemma ShortAtEnd(o: Output, start: Start, meant: seq<Event>, code: string)
    requires Phased(o, start, meant, code) && Late(o, start, meant, code) && o.line == []
    ensures FallsShort(o, start, "", meant, code)
  {
    hide Marks;
    var done, rest := Feed(START, Whole(o)).events, RestMeaning(o, start, "", code);
    assert Whole(o) == o.text;
    if !OutOfPhase(o, start, meant, code) {
      EndTracks(o, start, done, code);
      if rest.Some? {
        MarksConcat(done, rest.value);
        MarksConcat(meant, rest.value);
      }
    }
  }

  lemma NoDamage(o: Output, start: Start)
    ensures DamageFrom(o, start, "") == Damage(0, 0, 0)
  {
  }

  /** A program that is late, or that becomes so, never does what was meant. */
  lemma {:induction false} RunFallsShort(o: Output, start: Start, s: string, meant: seq<Event>, code: string)
    requires Phased(o, start, meant, code)
    requires DamageFrom(o, start, s).strays == 0
    requires Late(o, start, meant, code) || DamageFrom(o, start, s).unopened > 0
    requires if s == "" then o.line == [] else s[|s| - 1] == '\n'
    ensures FallsShort(o, start, s, meant, code)
    decreases |s|
  {
    hide Phased, Late, Acted, Marks, TokenEvents, TokenCode, RestMeaning, DamageOf, Next, Consumed, Behaviour;
    if s == "" {
      NoDamage(o, start);
      ShortAtEnd(o, start, meant, code);
    } else {
      var next, rest := Begin(start, Next(start, s).0), s[Consumed(start, s)..];
      var o', code' := Acted(o, NextToken(start, s)), TokenCode(o, start, s, code);
      var events := TokenEvents(o, start, s, code);
      PhasedAligns(o, start, meant, code);
      RanScan(o, start, s);
      DamageStep(o, start, s);
      MeaningStep(o, start, s, code);
      LastToken(o, start, s);
      PhaseStep(o, start, s, meant, code);
      RunFallsShort(o', next, rest, meant + events, code');
      PrependTwice(meant, events, RestMeaning(o', next, rest, code'));
    }
  }

  // ---- Text lost after `--%>` ----

  /** What a token makes happen: nothing, while the parser is in comment state. */
  function Happens(o: Output, start: Start, s: string, code: string): seq<Event>
    requires s != ""
  {
    if o.state == CommentState then [] else TokenEvents(o, start, s, code)
  }

  lemma LossOfToken(o: Output, start: Start, s: string, code: string)
    requires s != "" && Aligned(start, o.state)
    requires !(Next(start, s).0 == Char && o.state == CommentState && !Idle(s[0]))
    ensures |Happens(o, start, s, code)| + (if Loses(o, start, s) then 1 else 0) == |TokenEvents(o, start, s, code)|
  {
  }

  lemma TokenLoses(o: Output, start: Start, s: string, done: seq<Event>, code: string)
    requires s != "" && Tracks(o, start, done, code)
    requires DamageFrom(o, start, s).strays == 0 && DamageFrom(o, start, s).unopened == 0
    requires RestMeaning(o, start, s, code).Some?
    ensures var token, next, rest := NextToken(start, s), Begin(start, Next(start, s).0), s[Consumed(start, s)..];
            var o', code', d := Acted(o, token), TokenCode(o, start, s, code), DamageFrom(o, start, s);
            var d' := DamageFrom(o', next, rest);
            var m' := RestMeaning(o', next, rest, code');
            Tracks(o', next, done + Happens(o, start, s, code), code') && m'.Some? &&
            d'.strays == 0 && d'.unopened == 0 &&
            |Happens(o, start, s, code)| + d.lost + |m'.value| == d'.lost + |RestMeaning(o, start, s, code).value|
  {
    hide Tracks, RestMeaning, DamageOf, Acted, Next, Consumed;
    TracksAligns(o, start, done, code);
    DamageStep(o, start, s);
    TokenTracks(o, start, s, done, code);
    MeaningStep(o, start, s, code);
    LossOfToken(o, start, s, code);
  }

  lemma {:induction false} RunLoses(o: Output, start: Start, s: string, done: seq<Event>, code: string)
    requires Tracks(o, start, done, code)
    requires DamageFrom(o, start, s).strays == 0 && DamageFrom(o, start, s).unopened == 0
    requires if s == "" then o.line == [] else s[|s| - 1] == '\n'
    requires RestMeaning(o, start, s, code).Some?
    ensures var result := Behaviour(Ran(o, Scan(start, s)).text);
            result.Some? &&
            |result.value| + DamageFrom(o, start, s).lost == |done| + |RestMeaning(o, start, s, code).value|
    decreases |s|
  {
    hide Tracks, RestMeaning, Happens, TokenCode, Acted, Next, Consumed, Behaviour, DamageOf;
    if s == "" {
      EndTracks(o, start, done, code);
      NoDamage(o, start);
    } else {
      TracksAligns(o, start, done, code);
      RanScan(o, start, s);
      TokenLoses(o, start, s, done, code);
      LastToken(o, start, s);
      RunLoses(Acted(o, NextToken(start, s)), Begin(start, Next(start, s).0), s[Consumed(start, s)..],
               done + Happens(o, start, s, code), TokenCode(o, start, s, code));
    }
  }

  // ---- The exact condition ----

  lemma StartsInPhase(o: Output)
    requires o.state == TextState
    ensures Phased(Cleared(o), Text, [], "")
  {
    StartTracks(o);
    assert Whole(Cleared(o)) == [];
  }

  lemma QuietDamageShows(o: Output, doc: string)
    requires o.state == TextState && (doc == "" || doc[|doc| - 1] == '\n') && TextMeaning(doc).Some?
    requires !Harmless(doc) && DamageOf(Initial, false, true, doc).strays == 0
    ensures Behaviour(Compiled(o, doc).text) != TextMeaning(doc)
  {
    hide Tracks, Phased, Late, DamageOf, TextMeaning, Marks, Behaviour, Ran, Scan;
    var p := Cleared(o);
    StartTracks(o);
    StartsInPhase(o);
    DamageFromInitial(doc);
    RanFromInitial(p, doc);
    if DamageOf(Initial, false, true, doc).unopened > 0 {
      RunFallsShort(p, Text, doc, [], "");
      PrependNothing(TextMeaning(doc));
    } else {
      RunLoses(p, Text, doc, [], "");
    }
  }

  /** For every document that ends with a line feed and closes its expression blocks: the program reads back as what
      the document says if and only if its comments hold nothing but line ends and idle characters, those closed by
      `%>` are closed on an empty line, and nothing of the text stands between a `--%>` and the next marker. All this
      is read off the document. */
  lemma CommentsExact(o: Output, doc: string)
    requires o.state == TextState
    requires doc == "" || doc[|doc| - 1] == '\n'
    requires TextMeaning(doc).Some?
    ensures Behaviour(Compiled(o, doc).text) == TextMeaning(doc) <==> Harmless(doc)
  {
    hide DamageOf, TextMeaning, Behaviour, Compiled;
    if Harmless(doc) {
      CompilePreservesMeaning(o, doc);
    } else if DamageOf(Initial, false, true, doc).strays > 0 {
      CommentTextChangesMeaning(o, doc);
    } else {
      QuietDamageShows(o, doc);
    }
  }

  // ---- Documents for each kind of damage ----

  lemma CommentOpens(rest: string, blank: bool)
    ensures TextMeaning("<%--" + rest) == RemarkMeaning(rest)
    ensures DamageOf(Text, false, blank, "<%--" + rest) == DamageOf(Comment, true, blank, rest)
  {
    assert ("<%--" + rest)[4..] == rest;
  }

  lemma CommentCloses(rest: string, blank: bool)
    ensures RemarkMeaning("%>" + rest) == TextMeaning(rest)
    ensures var d := DamageOf(Text, false, blank, rest);
            DamageOf(Comment, true, blank, "%>" + rest) == if blank then d else d.(unopened := d.unopened + 1)
  {
    assert ("%>" + rest)[2..] == rest;
  }

  lemma PlainCharacter(c: char, rest: string, blank: bool)
    requires c !in "<{\\\r\n%-"
    ensures TextMeaning([c] + rest) == Prepend([Print(c)], TextMeaning(rest))
    ensures DamageOf(Text, false, blank, [c] + rest) == DamageOf(Text, false, false, rest)
    ensures RemarkMeaning([c] + rest) == RemarkMeaning(rest)
    ensures !Idle(c) ==> DamageOf(Comment, true, blank, [c] + rest).strays > 0
    ensures Idle(c) ==> DamageOf(Comment, true, blank, [c] + rest) == DamageOf(Comment, true, false, rest)
  {
    assert ([c] + rest)[1..] == rest;
  }

  predicate Ends(doc: string) {
    doc != "" && doc[|doc| - 1] == '\n' && TextMeaning(doc).Some?
  }

  lemma CommentLineEnds(rest: string, blank: bool)
    ensures RemarkMeaning("\n" + rest) == RemarkMeaning(rest)
    ensures DamageOf(Comment, true, blank, "\n" + rest) == DamageOf(Comment, true, true, rest)
  {
    assert ("\n" + rest)[1..] == rest;
  }

  /** A blank or a semicolon in a comment that ends on a line of its own does no damage. */
  lemma BlankComment(o: Output, c: char, rest: string)
    requires o.state == TextState && Idle(c) && c != '\r' && c != '\n' && Ends(rest)
    ensures var doc := "<%--" + ([c] + ("\n" + ("%>" + rest)));
            TextMeaning(doc) == TextMeaning(rest) &&
            (Behaviour(Compiled(o, doc).text) == TextMeaning(rest) <==> Harmless(rest))
  {
    hide DamageOf, TextMeaning, RemarkMeaning, Behaviour, Compiled;
    var doc := "<%--" + ([c] + ("\n" + ("%>" + rest)));
    assert doc[|doc| - 1] == rest[|rest| - 1];
    CommentOpens([c] + ("\n" + ("%>" + rest)), true);
    PlainCharacter(c, "\n" + ("%>" + rest), true);
    CommentLineEnds("%>" + rest, false);
    CommentCloses(rest, true);
    DamageFromInitial(doc);
    DamageFromInitial(rest);
    CommentsExact(o, doc);
  }

  /** A comment with a character in it that is not idle. */
  lemma TextInComment(o: Output, c: char, rest: string)
    requires o.state == TextState && c !in "<{\\\r\n%-" && !Idle(c) && Ends(rest)
    ensures var doc := "<%--" + ([c] + ("%>" + rest));
            TextMeaning(doc) == TextMeaning(rest) && Behaviour(Compiled(o, doc).text) != TextMeaning(rest)
  {
    hide DamageOf, TextMeaning, RemarkMeaning, Behaviour, Compiled;
    var doc := "<%--" + ([c] + ("%>" + rest));
    assert doc[|doc| - 1] == rest[|rest| - 1];
    CommentOpens([c] + ("%>" + rest), true);
    PlainCharacter(c, "%>" + rest, true);
    CommentCloses(rest, true);
    DamageFromInitial(doc);
    CommentsExact(o, doc);
  }

  /** An empty comment after a character on the same line. */
  lemma CommentInsideLine(o: Output, c: char, rest: string)
    requires o.state == TextState && c !in "<{\\\r\n%-" && Ends(rest)
    ensures var doc := [c] + ("<%--" + ("%>" + rest));
            TextMeaning(doc) == Prepend([Print(c)], TextMeaning(rest)) &&
            Behaviour(Compiled(o, doc).text) != TextMeaning(doc)
  {
    hide DamageOf, TextMeaning, RemarkMeaning, Behaviour, Compiled;
    var doc := [c] + ("<%--" + ("%>" + rest));
    assert doc[|doc| - 1] == rest[|rest| - 1];
    PlainCharacter(c, "<%--" + ("%>" + rest), true);
    CommentOpens("%>" + rest, false);
    CommentCloses(rest, false);
    DamageFromInitial(doc);
    CommentsExact(o, doc);
  }

  lemma DashesMean(tail: string)
    ensures RemarkMeaning("--%>" + tail) == TextMeaning(tail)
  {
    hide TextMeaning;
    var s := "--%>" + tail;
    RemarkSkips(s);
    assert s[1..] == "-%>" + tail;
    RemarkSkips(s[1..]);
    assert s[1..][1..] == "%>" + tail;
    CommentCloses(tail, true);
  }

  lemma DashesDamage(tail: string)
    ensures DamageOf(Comment, true, true, "--%>" + tail) == DamageOf(Text, true, true, tail)
  {
    var s := "--%>" + tail;
    assert s[4..] == tail;
    assert Next(Comment, s) == (LeaveComment, 4);
  }

  lemma DashesLeave(rest: string)
    ensures RemarkMeaning("--%>" + ("\n" + rest)) == Prepend([Print('\n')], TextMeaning(rest))
    ensures DamageOf(Comment, true, true, "--%>" + ("\n" + rest)).lost > 0
  {
    var tail := "\n" + rest;
    DashesMean(tail);
    DashesDamage(tail);
    assert tail[1..] == rest;
  }

  /** A comment closed by `--%>` at the end of a line. */
  lemma LineEndAfterDashes(o: Output, rest: string)
    requires o.state == TextState && Ends(rest)
    ensures var doc := "<%--" + ("--%>" + ("\n" + rest));
            TextMeaning(doc) == Prepend([Print('\n')], TextMeaning(rest)) &&
            Behaviour(Compiled(o, doc).text) != TextMeaning(doc)
  {
    hide DamageOf, TextMeaning, RemarkMeaning, Behaviour, Compiled;
    var doc := "<%--" + ("--%>" + ("\n" + rest));
    assert doc[|doc| - 1] == rest[|rest| - 1];
    CommentOpens("--%>" + ("\n" + rest), true);
    DashesLeave(rest);
    DamageFromInitial(doc);
    CommentsExact(o, doc);
  }
}
