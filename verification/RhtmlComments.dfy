/** The text of comments. The scanner has a comment state, but the parser puts the characters it reads there on the
    line, and a complete program runs every character copied into it. */
module RhtmlComments {
  import opened Options
  import opened RhtmlScanner
  import opened Substitution
  import opened RhtmlOutput
  import opened RhtmlTemplate
  import opened RubyReader
  import opened RhtmlMeaning
  import opened RhtmlTheorems
  import opened RhtmlLines

  // ---- Code is conserved: every copied character that is not idle shows up in the events ----

  function CharWeight(c: char): nat {
    if Idle(c) then 0 else 1
  }

  /** The characters of a code that are not idle. */
  function Weight(code: string): nat {
    if code == "" then 0 else Weight(code[..|code| - 1]) + CharWeight(code[|code| - 1])
  }

  lemma WeightSnoc(code: string, c: char)
    ensures Weight(code + [c]) == Weight(code) + CharWeight(c)
  {
    assert (code + [c])[..|code|] == code;
  }

  lemma {:induction false} TrailWeight(code: string)
    ensures Weight(Trail(code)) == Weight(code)
    decreases |code|
  {
    if code == "" || !Idle(code[|code| - 1]) {
    } else {
      TrailWeight(code[..|code| - 1]);
    }
  }

  lemma {:induction false} LeadWeight(code: string)
    ensures Weight(Lead(code)) == Weight(code)
    decreases |code|
  {
    if code == "" {
    } else {
      LeadWeight(code[..|code| - 1]);
      WeightSnoc(Lead(code[..|code| - 1]), code[|code| - 1]);
    }
  }

  function EventSize(e: Event): nat {
    match e
    case Print(_) => 0
    case Execute(code) => Weight(code)
    case Show(expr) => Weight(expr)
  }

  function CodeSize(events: seq<Event>): nat {
    if events == [] then 0 else CodeSize(events[..|events| - 1]) + EventSize(events[|events| - 1])
  }

  function OpenSize(mode: Mode): nat {
    match mode
    case Fragment(code) => Weight(code)
    case Expression(expr) => Weight(expr)
    case Closing(expr) => Weight(expr)
    case _ => 0
  }

  function GlyphWeight(g: Glyph): nat {
    if g.Copied? then CharWeight(g.c) else 0
  }

  function Copies(g: seq<Glyph>): nat {
    if g == [] then 0 else GlyphWeight(g[0]) + Copies(g[1..])
  }

  lemma {:induction false} CopiesConcat(a: seq<Glyph>, b: seq<Glyph>)
    ensures Copies(a + b) == Copies(a) + Copies(b)
    decreases |a|
  {
    if a == [] {
      assert a + b == b;
    } else {
      assert (a + b)[1..] == a[1..] + b;
      CopiesConcat(a[1..], b);
    }
  }

  lemma CodeSizePush(events: seq<Event>, e: Event)
    ensures CodeSize(events + [e]) == CodeSize(events) + EventSize(e)
  {
    assert (events + [e])[..|events|] == events;
  }

  lemma {:induction false} CodeSizeConcat(a: seq<Event>, b: seq<Event>)
    ensures CodeSize(a + b) == CodeSize(a) + CodeSize(b)
    decreases |b|
  {
    if b == [] {
      assert a + b == a;
    } else {
      var front, last := b[..|b| - 1], b[|b| - 1];
      assert a + b == a + front + [last];
      assert b == front + [last];
      CodeSizePush(a + front, last);
      CodeSizePush(front, last);
      CodeSizeConcat(a, front);
    }
  }

  lemma WeightOfNothing()
    ensures Weight("") == 0
  {
  }

  lemma StepSize(r: Reader, g: Glyph)
    requires Step(r, g).mode != Broken
    ensures r.mode != Broken
    ensures CodeSize(Step(r, g).events) + OpenSize(Step(r, g).mode) ==
      CodeSize(r.events) + OpenSize(r.mode) + GlyphWeight(g)
  {
    hide CodeSize, Weight, Trail;
    WeightOfNothing();
    match r.mode {
      case Fragment(code) =>
        WeightSnoc(code, g.c);
        TrailWeight(code);
        CodeSizePush(r.events, Execute(Trail(code)));
      case Expression(expr) => WeightSnoc(expr, g.c);
      case Closing(expr) => CodeSizePush(r.events, Show(expr));
      case Statement =>
        WeightSnoc("", g.c);
        assert "" + [g.c] == [g.c];
      case Escaping => CodeSizePush(r.events, if g.c == 'n' then Print('\n') else Print(g.c));
      case Literal => CodeSizePush(r.events, Print(g.c));
      case _ =>
    }
  }

  lemma {:induction false} FeedSize(r: Reader, g: seq<Glyph>)
    requires Feed(r, g).mode != Broken
    ensures r.mode != Broken
    ensures CodeSize(Feed(r, g).events) + OpenSize(Feed(r, g).mode) == CodeSize(r.events) + OpenSize(r.mode) + Copies(g)
    decreases |g|
  {
    if g == [] {
    } else {
      FeedSize(Step(r, g[0]), g[1..]);
      StepSize(r, g[0]);
    }
  }

  /** A complete program executes every copied character, once, but for idle ones. */
  lemma BehaviourSize(program: seq<Glyph>)
    requires Behaviour(program).Some?
    ensures CodeSize(Behaviour(program).value) == Copies(program)
  {
    var r := Feed(START, program);
    FeedSize(START, program);
    if r.mode.Fragment? {
      CodeSizePush(r.events, Execute(Trail(r.mode.code)));
      TrailWeight(r.mode.code);
    }
  }

  lemma {:induction false} CopiesOfEmitted(g: seq<Glyph>)
    requires AllEmitted(g)
    ensures Copies(g) == 0
    decreases |g|
  {
    if g == [] {
    } else {
      CopiesOfEmitted(g[1..]);
    }
  }

  lemma CopiesOfOne(c: char, line: int)
    ensures Copies(Copy([c], line)) == CharWeight(c)
  {
    assert Copy([c], line)[1..] == [];
  }

  lemma AdditionCopies(o: Output, start: Start, s: string)
    requires s != "" && Aligned(start, o.state)
    ensures var rule := Next(start, s).0;
            Copies(TokenAddition(o, NextToken(start, s))) ==
              if rule == Char && o.state != TextState then CharWeight(s[0]) else 0
  {
    hide Copies;
    var token := NextToken(start, s);
    LexemeCut(start, s);
    AdditionShape(o, token);
    if AllEmitted(TokenAddition(o, token)) {
      CopiesOfEmitted(TokenAddition(o, token));
    } else {
      CopiesOfOne(s[0], o.current);
      CopiesOfOne('\n', o.current);
      assert s[..1] == [s[0]];
    }
  }

  /** How many characters a token copies. */
  lemma TokenCopies(o: Output, start: Start, s: string)
    requires s != "" && Aligned(start, o.state)
    ensures var rule := Next(start, s).0;
            Copies(Whole(Acted(o, NextToken(start, s)))) == Copies(Whole(o)) +
              (if rule == Char && o.state != TextState then CharWeight(s[0]) else 0)
  {
    hide Acted, Whole, Copies, TokenAddition;
    var token := NextToken(start, s);
    TokenAdds(o, token);
    CopiesConcat(Whole(o), TokenAddition(o, token));
    AdditionCopies(o, start, s);
  }

  lemma SizeOfOne(e: Event)
    ensures CodeSize([e]) == EventSize(e)
  {
    CodeSizePush([], e);
    assert [] + [e] == [e];
  }

  lemma BlockSize(code: string)
    ensures CodeSize(Block(code)) == Weight(code)
  {
    TrailWeight(Lead(code));
    LeadWeight(code);
    SizeOfOne(Execute(Trail(Lead(code))));
  }

  lemma SizeOfNothing()
    ensures CodeSize([]) == 0
  {
  }

  lemma TokenEventsSize(o: Output, start: Start, s: string, code: string)
    requires s != "" && (start != Code ==> code == "") && Aligned(start, o.state)
    ensures CodeSize(TokenEvents(o, start, s, code)) ==
      if Next(start, s).0 == CloseCode then Weight(code) else 0
  {
    hide CodeSize, Weight, Trail, Lead;
    BlockSize(code);
    SizeOfOne(Show(code));
    SizeOfOne(Print(s[0]));
    SizeOfOne(Print('\n'));
    SizeOfNothing();
  }

  lemma TokenWeight(o: Output, start: Start, s: string, code: string)
    requires s != "" && (start != Code ==> code == "") && Aligned(start, o.state)
    ensures var rule := Next(start, s).0;
            Weight(TokenCode(o, start, s, code)) ==
              if rule == Char && start == Code then Weight(code) + CharWeight(s[0])
              else if rule == CloseCode then 0
              else Weight(code)
  {
    WeightSnoc(code, s[0]);
    WeightSnoc(code, '\n');
  }

  lemma PrependSize(events: seq<Event>, rest: Option<seq<Event>>)
    requires rest.Some?
    ensures Prepend(events, rest).Some?
    ensures CodeSize(Prepend(events, rest).value) == CodeSize(events) + CodeSize(rest.value)
  {
    CodeSizeConcat(events, rest.value);
  }

  lemma RunCopiesStep(o: Output, start: Start, s: string, code: string)
    requires s != "" && Aligned(start, o.state) && (start != Code ==> code == "")
    requires RestMeaning(o, start, s, code).Some?
    ensures var token, next, rest := NextToken(start, s), Begin(start, Next(start, s).0), s[Consumed(start, s)..];
            var o', code' := Acted(o, token), TokenCode(o, start, s, code);
            Aligned(next, o'.state) && (next != Code ==> code' == "") &&
            RestMeaning(o', next, rest, code').Some? &&
            var m, m' := RestMeaning(o, start, s, code).value, RestMeaning(o', next, rest, code').value;
            Copies(Whole(o')) + CodeSize(m') + DamageFrom(o', next, rest).strays + Weight(code)
            == Copies(Whole(o)) + CodeSize(m) + DamageFrom(o, start, s).strays + Weight(code')
  {
    DamageStep(o, start, s);
    MeaningStep(o, start, s, code);
    TokenCopies(o, start, s);
    TokenWeight(o, start, s, code);
    TokenEventsSize(o, start, s, code);
    PrependSize(TokenEvents(o, start, s, code),
                RestMeaning(Acted(o, NextToken(start, s)), Begin(start, Next(start, s).0), s[Consumed(start, s)..],
                            TokenCode(o, start, s, code)));
  }

  /** The characters copied, but for idle ones, are those of the template's code, and the strays. */
  lemma {:induction false} RunCopies(o: Output, start: Start, s: string, code: string)
    requires Aligned(start, o.state) && (start != Code ==> code == "")
    requires RestMeaning(o, start, s, code).Some?
    ensures Copies(Whole(Ran(o, Scan(start, s)))) + Weight(code) ==
      Copies(Whole(o)) + CodeSize(RestMeaning(o, start, s, code).value) + DamageFrom(o, start, s).strays
    decreases |s|
  {
    if s == "" {
      BlockSize(code);
    } else {
      RanScan(o, start, s);
      RunCopiesStep(o, start, s, code);
      RunCopies(Acted(o, NextToken(start, s)), Begin(start, Next(start, s).0), s[Consumed(start, s)..],
                TokenCode(o, start, s, code));
    }
  }

  /** A character of a comment, unless it is idle, always shows in what the program does. */
  lemma CommentTextChangesMeaning(o: Output, doc: string)
    requires o.state == TextState
    requires doc == "" || doc[|doc| - 1] == '\n'
    requires TextMeaning(doc).Some?
    requires DamageOf(Initial, false, true, doc).strays > 0
    ensures Behaviour(Compiled(o, doc).text) != TextMeaning(doc)
  {
    DamageFromInitial(doc);
    RanFromInitial(Cleared(o), doc);
    RunCopies(Cleared(o), Text, doc, "");
    LineFeedFlushes(Cleared(o), Text, doc);
    var text := Compiled(o, doc).text;
    assert Whole(Ran(Cleared(o), Scan(Text, doc))) == text;
    if Behaviour(text).Some? {
      BehaviourSize(text);
    }
  }
}
