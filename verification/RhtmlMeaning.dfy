/** Compilation preserves meaning: reading the emitted program gives the events read off the template. */
module RhtmlMeaning {
  import opened Options
  import opened RhtmlScanner
  import opened Substitution
  import opened RhtmlOutput
  import opened RhtmlTemplate
  import opened RubyReader

  function Whole(o: Output): seq<Glyph> {
    o.text + o.line
  }

  /** Where a reader of everything emitted so far stands: `done` is what has happened, `code` the block being read.
      In text a literal is open exactly when the line has something on it. */
  ghost predicate Tracks(o: Output, start: Start, done: seq<Event>, code: string) {
    var r := Feed(START, Whole(o));
    && r.events == done
    && match o.state
       case TextState =>
         start == Text && r.mode == (if o.line == [] then Statement else Literal) && code == ""
       case CodeState =>
         start == Code && r.mode == (if Lead(code) == "" then Statement else Fragment(Lead(code))) &&
         (o.line == [] && code != "" ==> EndsLine(code))
       case VarState => start == Code && r.mode == Expression(code)
       case CommentState => (start == Comment || start == Text) && r.mode == Statement && code == ""
  }

  /** The meaning of the rest of the document from a tracked position. */
  function RestMeaning(o: Output, start: Start, s: string, code: string): Option<seq<Event>> {
    match o.state
    case CommentState => if start == Comment then RemarkMeaning(s) else TextMeaning(s)
    case TextState => TextMeaning(s)
    case CodeState => BlockMeaning(s, code)
    case VarState => ExpressionMeaning(s, code)
  }

  /** Putting `more` on the line is seen by the reader after everything before it. */
  lemma FeedMore(o: Output, more: seq<Glyph>)
    ensures Feed(START, Whole(o.(line := o.line + more))) == Feed(Feed(START, Whole(o)), more)
  {
    assert o.text + (o.line + more) == Whole(o) + more;
    FeedConcat(START, Whole(o), more);
  }

  /** Flushing moves the line without changing what is read. */
  lemma FlushKeepsWhole(o: Output)
    ensures Whole(LineEnded(o)) == o.text + EndedLine(o)
  {
  }

  // ---- One lemma per action ----

  /** Starting a literal on an empty line. */
  lemma FeedStart(o: Output, done: seq<Event>)
    requires o.state == TextState && Tracks(o, Text, done, "")
    ensures var line := if o.line == [] then Emit("print \"") else o.line;
            Feed(START, Whole(o.(line := line))) == Reader(Literal, done)
  {
    if o.line == [] {
      FeedMore(o, Emit("print \""));
      assert o.line + Emit("print \"") == Emit("print \"");
      FeedOpen(Feed(START, Whole(o)));
      assert done + [] == done;
    }
  }

  lemma TextChar(o: Output, c: char, done: seq<Event>)
    requires o.state == TextState && Tracks(o, Text, done, "")
    ensures Tracks(ReadIn(o, [c]), Text, done + [Print(c)], "")
  {
    var p := o.(line := if o.line == [] then Emit("print \"") else o.line);
    FeedStart(o, done);
    assert Escape([c]) == EscapeChar(c) by { assert [c][1..] == ""; assert EscapeChar(c) + "" == EscapeChar(c); }
    FeedMore(p, Emit(EscapeChar(c)));
    FeedEscapedChar(Feed(START, Whole(p)), c);
    assert ReadIn(o, [c]) == p.(line := p.line + Emit(EscapeChar(c)));
    assert |Emit(EscapeChar(c))| > 0;
  }

  lemma TextLineEnd(o: Output, done: seq<Event>)
    requires o.state == TextState && Tracks(o, Text, done, "")
    ensures Tracks(LineEnded(o), Text, done + [Print('\n')], "")
  {
    var p := o.(line := if o.line == [] then Emit("print \"") else o.line);
    FeedStart(o, done);
    FeedMore(p, Emit("\\n\"\n"));
    FeedLineEnd(Feed(START, Whole(p)));
    FlushKeepsWhole(o);
    assert Whole(LineEnded(o)) == Whole(p.(line := p.line + Emit("\\n\"\n")));
  }

  /** Leaving text closes an open literal. */
  lemma FeedLeaveText(o: Output, done: seq<Event>, s: State)
    requires o.state == TextState && Tracks(o, Text, done, "")
    ensures Feed(START, Whole(Changed(o, s))) == Reader(Statement, done)
    ensures o.line == [] ==> Changed(o, s).line == []
    ensures o.line != [] ==> Changed(o, s).line != []
  {
    if o.line != [] {
      FeedMore(o, Emit("\"; "));
      var r := Feed(START, Whole(o));
      FeedEmit(r, "\"; ");
      assert "\"; "[1..] == "; ";
      FeedEmit2(r.(mode := Closed), "; ");
      assert |Emit("\"; ")| == 3;
    }
  }

  lemma TextOpenCode(o: Output, done: seq<Event>)
    requires o.state == TextState && Tracks(o, Text, done, "")
    ensures Tracks(Changed(o, CodeState), Code, done, "")
  {
    FeedLeaveText(o, done, CodeState);
  }

  lemma TextOpenExpr(o: Output, done: seq<Event>)
    requires o.state == TextState && Tracks(o, Text, done, "")
    ensures Tracks(Appended(Changed(o, VarState), "print(("), Code, done, "")
  {
    var p := Changed(o, VarState);
    FeedLeaveText(o, done, VarState);
    FeedMore(p, Emit("print(("));
    FeedOpenExpression(Feed(START, Whole(p)));
  }

  lemma CodeChar(o: Output, c: char, done: seq<Event>, code: string)
    requires Tracks(o, Code, done, code)
    ensures Tracks(ReadIn(o, [c]), Code, done, code + [c])
  {
    hide Lead, Trail, Feed, Whole, EndsLine;
    FeedMore(o, Copy([c], o.current));
    FeedCopy1(Feed(START, Whole(o)), [c], o.current);
    assert |Copy([c], o.current)| == 1;
    LeadSnoc(code, c);
  }

  lemma CodeLineEnd(o: Output, done: seq<Event>, code: string)
    requires Tracks(o, Code, done, code)
    ensures Tracks(LineEnded(o), Code, done, if o.state == CodeState then code + "\n" else code)
  {
    FlushKeepsWhole(o);
    if o.state == CodeState {
      FeedMore(o, Copy("\n", o.current));
      FeedCopy1(Feed(START, Whole(o)), "\n", o.current);
      assert Whole(LineEnded(o)) == Whole(o.(line := o.line + Copy("\n", o.current)));
      LeadSnoc(code, '\n');
    } else {
      assert Whole(LineEnded(o)) == Whole(o);
    }
  }

  /** Coming back to text with something on the line: a `;` ends what is there and a literal opens. */
  lemma Reopen(o: Output, r: Reader)
    requires r == Feed(START, Whole(o)) && o.line != [] && (o.state == CodeState || o.state == VarState)
    requires r.mode == Statement || r.mode == Closed || r.mode.Fragment?
    ensures Changed(o, TextState).line != []
    ensures Feed(START, Whole(Changed(o, TextState))) ==
      Reader(Literal, r.events + if r.mode.Fragment? then [Execute(Trail(r.mode.code))] else [])
  {
    var events := r.events + if r.mode.Fragment? then [Execute(Trail(r.mode.code))] else [];
    assert r.events + [] == r.events;
    var p := o.(line := o.line + Emit("; "));
    FeedMore(o, Emit("; "));
    FeedEmit2(r, "; ");
    assert Feed(START, Whole(p)) == Reader(Statement, events);
    FeedMore(p, Emit("print \""));
    FeedOpen(Reader(Statement, events));
    assert events + [] == events;
  }

  /** Coming back to text separates the code from the literal that follows, whichever way the line stands. */
  lemma CloseBlock(o: Output, done: seq<Event>, code: string)
    requires Tracks(o, Code, done, code) && o.state == CodeState
    ensures Tracks(Changed(o, TextState), Text, done + Block(code), "")
  {
    var r := Feed(START, Whole(o));
    assert done + [] == done;
    if o.line == [] {
      FeedMore(o, Emit("print \""));
      FeedOpen(r);
      assert o.line + Emit("print \"") == Emit("print \"");
      assert |Emit("print \"")| == 7;
    } else {
      Reopen(o, r);
    }
  }

  lemma CloseExpression(o: Output, done: seq<Event>, code: string)
    requires Tracks(o, Code, done, code) && o.state == VarState
    ensures Tracks(Changed(Appended(o, "))"), TextState), Text, done + [Show(code)], "")
  {
    var p := Appended(o, "))");
    FeedMore(o, Emit("))"));
    FeedEmit2(Feed(START, Whole(o)), "))");
    assert |Emit("))")| == 2;
    Reopen(p, Reader(Closed, done + [Show(code)]));
    assert (done + [Show(code)]) + [] == done + [Show(code)];
  }

  // ---- Comments ----

  /** What comments do to the output: `strays` counts the characters, other than idle ones, read raw while the parser
      is in comment state, `lost` the line ends and idle characters of text that are not printed because the parser
      still is in that state after `--%>`, and `unopened` the comments closed by `%>` on a line that already has
      something on it, if only a blank, where no new literal is opened. */
  datatype Damage = Damage(strays: nat, lost: nat, unopened: nat)

  /** Read off the template: `comment` says that the parser has not left comment state, `blank` that nothing has
      been put on the current line. */
  function DamageOf(start: Start, comment: bool, blank: bool, s: string): Damage
    decreases |s|, start == Initial
  {
    if s == "" then Damage(0, 0, 0)
    else
      var rest := s[Consumed(start, s)..];
      match Next(start, s).0
      case Restart => DamageOf(Text, comment, blank, rest)
      case Swallow => DamageOf(start, comment, blank, rest)
      case OpenCode => DamageOf(Code, false, blank, rest)
      case OpenExpr => DamageOf(Code, false, false, rest)
      case CloseCode => DamageOf(Text, false, false, rest)
      case OpenComment => DamageOf(Comment, true, blank, rest)
      case LeaveComment => DamageOf(Text, comment, blank, rest)
      case CloseComment =>
        var d := DamageOf(Text, false, blank, rest);
        if blank then d else d.(unopened := d.unopened + 1)
      case Char =>
        var d := DamageOf(start, comment, false, rest);
        if !comment then d
        else if !Idle(s[0]) then d.(strays := d.strays + 1)
        else if start == Text then d.(lost := d.lost + 1)
        else d
      case LineEnd =>
        var d := DamageOf(start, comment, true, rest);
        if comment && start == Text then d.(lost := d.lost + 1) else d
  }

  /** The comments of a document do no damage: they hold nothing but line ends and idle characters, one closed by
      `%>` is closed on an empty line, and one closed by `--%>` is followed by another marker before any text. */
  predicate Harmless(doc: string) {
    DamageOf(Initial, false, true, doc) == Damage(0, 0, 0)
  }

  function DamageFrom(o: Output, start: Start, s: string): Damage {
    DamageOf(start, o.state == CommentState, o.line == [], s)
  }

  /** A line end or an idle character of text is not printed. */
  predicate Loses(o: Output, start: Start, s: string)
    requires s != ""
  {
    var rule := Next(start, s).0;
    start == Text && o.state == CommentState && (rule == LineEnd || (rule == Char && Idle(s[0])))
  }

  lemma CharFillsLine(o: Output, t: string)
    requires t != ""
    ensures ReadIn(o, t).line != []
  {
    assert |Escape(t)| > 0;
    assert |Emit(Escape(t))| > 0 && |Copy(t, o.current)| > 0;
  }

  /** Start condition and state as they can occur together: only in text may the parser have missed a step. */
  predicate Aligned(start: Start, state: State) {
    start != Initial &&
    (start == Code <==> state == CodeState || state == VarState) &&
    (start == Comment ==> state == CommentState)
  }

  /** The flags of `DamageOf` follow the parser's own fields. */
  lemma DamageStep(o: Output, start: Start, s: string)
    requires s != "" && Aligned(start, o.state)
    ensures var token, rest := NextToken(start, s), s[Consumed(start, s)..];
            var d := DamageFrom(Acted(o, token), Begin(start, token.rule), rest);
            DamageFrom(o, start, s) == Damage(
              d.strays + (if token.rule == Char && o.state == CommentState && !Idle(s[0]) then 1 else 0),
              d.lost + (if Loses(o, start, s) then 1 else 0),
              d.unopened + (if token.rule == CloseComment && o.line != [] then 1 else 0))
  {
    var token := NextToken(start, s);
    var o' := Acted(o, token);
    assert |Emit("print \"")| == 7 && |Emit("; ")| == 2 && |Emit("\"; ")| == 3 && |Emit("print((")| == 7;
    match token.rule {
      case OpenExpr => assert o'.line != [];
      case CloseCode => assert o'.line != [];
      case Char => CharFillsLine(o, token.lexeme);
      case _ =>
    }
  }

  // ---- The whole scan ----

  lemma PrependTwice(a: seq<Event>, b: seq<Event>, rest: Option<seq<Event>>)
    ensures Prepend(a + b, rest) == Prepend(a, Prepend(b, rest))
  {
    if rest.Some? {
      assert a + b + rest.value == a + (b + rest.value);
    }
  }

  lemma PrependNothing(rest: Option<seq<Event>>)
    ensures Prepend([], rest) == rest
  {
    if rest.Some? {
      assert [] + rest.value == rest.value;
    }
  }

  /** The events of one token, as the template has them, where the code block read so far is `code`. */
  function TokenEvents(o: Output, start: Start, s: string, code: string): seq<Event>
    requires s != ""
  {
    var text := o.state == TextState || (o.state == CommentState && start == Text);
    match Next(start, s).0
    case Char => if text then [Print(s[0])] else []
    case LineEnd => if text then [Print('\n')] else []
    case CloseCode => if o.state == VarState then [Show(code)] else Block(code)
    case _ => []
  }

  /** The code block after one token. */
  function TokenCode(o: Output, start: Start, s: string, code: string): string
    requires s != ""
  {
    match Next(start, s).0
    case Char => if o.state == CodeState || o.state == VarState then code + [s[0]] else code
    case LineEnd => if o.state == CodeState then code + "\n" else code
    case _ => ""
  }

  lemma RemarkSkips(s: string)
    requires s != "" && s[0] != '%'
    ensures RemarkMeaning(s) == RemarkMeaning(s[1..])
  {
  }

  lemma TextStep(o: Output, start: Start, s: string, code: string)
    requires s != "" && Aligned(start, o.state) && (start != Code ==> code == "")
    requires start == Text
    ensures var token, rest := NextToken(start, s), s[Consumed(start, s)..];
            Aligned(Begin(start, token.rule), Acted(o, token).state) &&
            (Begin(start, token.rule) != Code ==> TokenCode(o, start, s, code) == "") &&
            RestMeaning(o, start, s, code) ==
              Prepend(TokenEvents(o, start, s, code),
                      RestMeaning(Acted(o, token), Begin(start, token.rule), rest, TokenCode(o, start, s, code)))
  {
    var rule, rest := Next(start, s).0, s[Consumed(start, s)..];
    PrependNothing(RestMeaning(Acted(o, NextToken(start, s)), Begin(start, rule), rest, TokenCode(o, start, s, code)));
  }

  lemma CodeStep(o: Output, start: Start, s: string, code: string)
    requires s != "" && Aligned(start, o.state) && (start != Code ==> code == "")
    requires start == Code
    ensures var token, rest := NextToken(start, s), s[Consumed(start, s)..];
            Aligned(Begin(start, token.rule), Acted(o, token).state) &&
            (Begin(start, token.rule) != Code ==> TokenCode(o, start, s, code) == "") &&
            RestMeaning(o, start, s, code) ==
              Prepend(TokenEvents(o, start, s, code),
                      RestMeaning(Acted(o, token), Begin(start, token.rule), rest, TokenCode(o, start, s, code)))
  {
    var rule, rest := Next(start, s).0, s[Consumed(start, s)..];
    PrependNothing(RestMeaning(Acted(o, NextToken(start, s)), Begin(start, rule), rest, TokenCode(o, start, s, code)));
  }

  lemma CommentStep(o: Output, start: Start, s: string, code: string)
    requires s != "" && Aligned(start, o.state) && (start != Code ==> code == "")
    requires start == Comment
    ensures var token, rest := NextToken(start, s), s[Consumed(start, s)..];
            Aligned(Begin(start, token.rule), Acted(o, token).state) &&
            (Begin(start, token.rule) != Code ==> TokenCode(o, start, s, code) == "") &&
            RestMeaning(o, start, s, code) ==
              Prepend(TokenEvents(o, start, s, code),
                      RestMeaning(Acted(o, token), Begin(start, token.rule), rest, TokenCode(o, start, s, code)))
  {
    var rule, rest := Next(start, s).0, s[Consumed(start, s)..];
    PrependNothing(RestMeaning(Acted(o, NextToken(start, s)), Begin(start, rule), rest, TokenCode(o, start, s, code)));
    if rule == LeaveComment {
      RemarkSkips(s);
      RemarkSkips(s[1..]);
      assert s[1..][1..] == s[2..];
      assert s[2..][2..] == rest;
    } else if LineEndLength(s) == 2 {
      RemarkSkips(s);
      RemarkSkips(s[1..]);
      assert s[1..][1..] == rest;
    }
  }

  /** The template's meaning, taken one token at a time. */
  lemma MeaningStep(o: Output, start: Start, s: string, code: string)
    requires s != "" && Aligned(start, o.state) && (start != Code ==> code == "")
    ensures var token, rest := NextToken(start, s), s[Consumed(start, s)..];
            Aligned(Begin(start, token.rule), Acted(o, token).state) &&
            (Begin(start, token.rule) != Code ==> TokenCode(o, start, s, code) == "") &&
            RestMeaning(o, start, s, code) ==
              Prepend(TokenEvents(o, start, s, code),
                      RestMeaning(Acted(o, token), Begin(start, token.rule), rest, TokenCode(o, start, s, code)))
  {
    hide RestMeaning, TokenEvents, TokenCode, Acted, Next, Consumed;
    match start {
      case Text => TextStep(o, start, s, code);
      case Code => CodeStep(o, start, s, code);
      case Comment => CommentStep(o, start, s, code);
    }
  }

  lemma TextOpenComment(o: Output, done: seq<Event>)
    requires o.state == TextState && Tracks(o, Text, done, "")
    ensures Tracks(Changed(o, CommentState), Comment, done, "")
  {
    FeedLeaveText(o, done, CommentState);
  }

  lemma TextToken(o: Output, s: string, done: seq<Event>)
    requires s != "" && o.state == TextState && Tracks(o, Text, done, "")
    ensures Tracks(Acted(o, NextToken(Text, s)), Begin(Text, Next(Text, s).0), done + TokenEvents(o, Text, s, ""), "")
  {
    hide Feed, Whole, Tracks, ReadIn, LineEnded;
    var rule := Next(Text, s).0;
    assert done + [] == done;
    if rule == Char {
      TextChar(o, s[0], done);
      assert s[..1] == [s[0]];
    } else if rule == LineEnd {
      TextLineEnd(o, done);
    } else {
      TextOpenComment(o, done);
      TextOpenCode(o, done);
      TextOpenExpr(o, done);
    }
  }

  lemma CodeToken(o: Output, s: string, done: seq<Event>, code: string)
    requires s != "" && o.state != CommentState && Tracks(o, Code, done, code)
    ensures Tracks(Acted(o, NextToken(Code, s)), Begin(Code, Next(Code, s).0),
                   done + TokenEvents(o, Code, s, code), TokenCode(o, Code, s, code))
  {
    hide Feed, Lead, Trail;
    var rule := Next(Code, s).0;
    assert done + [] == done;
    if rule == Char {
      CodeChar(o, s[0], done, code);
      assert s[..1] == [s[0]];
    } else if rule == LineEnd {
      CodeLineEnd(o, done, code);
    } else if o.state == CodeState {
      CloseBlock(o, done, code);
    } else {
      CloseExpression(o, done, code);
    }
  }

  /** While the parser is in comment state, whether or not the scanner is. */
  lemma CommentToken(o: Output, start: Start, s: string, done: seq<Event>)
    requires s != "" && o.state == CommentState && Tracks(o, start, done, "")
    requires Next(start, s).0 == Char ==> Idle(s[0])
    requires !(Next(start, s).0 == CloseComment && o.line != [])
    ensures Tracks(Acted(o, NextToken(start, s)), Begin(start, Next(start, s).0), done, "")
  {
    hide Feed;
    if Next(start, s).0 == OpenExpr {
      var p := Changed(o, VarState);
      assert Whole(p) == Whole(o);
      FeedMore(p, Emit("print(("));
      FeedOpenExpression(Feed(START, Whole(p)));
    } else if Next(start, s).0 == Char {
      assert s[..1] == [s[0]];
      FeedMore(o, Copy([s[0]], o.current));
      FeedCopy1(Feed(START, Whole(o)), [s[0]], o.current);
    } else {
      assert Whole(Acted(o, NextToken(start, s))) == Whole(o);
    }
  }

  /** One token that does no stray or unopened damage: the parser stays tracked. A line end dropped in comment
      state is the one event that does not happen. */
  lemma TokenTracks(o: Output, start: Start, s: string, done: seq<Event>, code: string)
    requires s != "" && Tracks(o, start, done, code)
    requires !(Next(start, s).0 == Char && o.state == CommentState && !Idle(s[0]))
    requires !(Next(start, s).0 == CloseComment && o.line != [])
    ensures var happens := if o.state == CommentState then [] else TokenEvents(o, start, s, code);
            Tracks(Acted(o, NextToken(start, s)), Begin(start, Next(start, s).0),
                   done + happens, TokenCode(o, start, s, code))
  {
    assert done + [] == done;
    if o.state == CommentState {
      CommentToken(o, start, s, done);
    } else if start == Text {
      TextToken(o, s, done);
    } else {
      CodeToken(o, s, done, code);
    }
  }

  /** When the input ends, everything emitted reads as what is done plus the code block still open. */
  lemma EndTracks(o: Output, start: Start, done: seq<Event>, code: string)
    requires Tracks(o, start, done, code) && o.line == []
    ensures Behaviour(o.text) == Prepend(done, RestMeaning(o, start, "", code))
  {
    assert Whole(o) == o.text;
    assert done + [] == done;
  }

  /** A token that takes the last character of an input ending in a line feed ends the line. */
  lemma LastToken(o: Output, start: Start, s: string)
    requires s != "" && s[|s| - 1] == '\n' && start != Initial
    ensures var rest := s[Consumed(start, s)..];
            if rest == "" then Acted(o, NextToken(start, s)).line == [] else rest[|rest| - 1] == '\n'
  {
    NextBeforeLineFeed(start, s, "");
  }

  lemma TracksAligns(o: Output, start: Start, done: seq<Event>, code: string)
    requires Tracks(o, start, done, code)
    ensures Aligned(start, o.state) && (start != Code ==> code == "")
  {
  }

  /** In comment state a token that loses nothing was not meant to make anything happen. */
  lemma NothingLost(o: Output, start: Start, s: string, code: string)
    requires s != "" && o.state == CommentState && Aligned(start, o.state)
    requires !Loses(o, start, s) && !(Next(start, s).0 == Char && !Idle(s[0]))
    ensures TokenEvents(o, start, s, code) == []
  {
  }

  /** Without damage, the program read back does what is done so far and then what the rest of the template says. */
  lemma {:induction false} RunTracks(o: Output, start: Start, s: string, done: seq<Event>, code: string)
    requires Tracks(o, start, done, code)
    requires DamageFrom(o, start, s) == Damage(0, 0, 0)
    requires if s == "" then o.line == [] else s[|s| - 1] == '\n'
    ensures Behaviour(Ran(o, Scan(start, s)).text) == Prepend(done, RestMeaning(o, start, s, code))
    decreases |s|
  {
    hide Tracks, RestMeaning, TokenEvents, TokenCode, Acted, Next, Consumed, Behaviour, DamageOf;
    if s == "" {
      EndTracks(o, start, done, code);
    } else {
      var next, rest := Begin(start, Next(start, s).0), s[Consumed(start, s)..];
      TracksAligns(o, start, done, code);
      RanScan(o, start, s);
      DamageStep(o, start, s);
      TokenTracks(o, start, s, done, code);
      MeaningStep(o, start, s, code);
      LastToken(o, start, s);
      if o.state == CommentState {
        NothingLost(o, start, s, code);
      }
      var o', code' := Acted(o, NextToken(start, s)), TokenCode(o, start, s, code);
      var events := TokenEvents(o, start, s, code);
      PrependTwice(done, events, RestMeaning(o', next, rest, code'));
      RunTracks(o', next, rest, done + events, code');
    }
  }

  lemma RestInText(o: Output, s: string)
    requires Aligned(Text, o.state)
    ensures RestMeaning(o, Text, s, "") == TextMeaning(s)
  {
  }

  lemma NoMeaning()
    ensures TextMeaning("") == Some([])
  {
  }

  lemma SameToken(o: Output, start: Start, a: string, b: string, code: string)
    requires a != "" && a[|a| - 1] == '\n'
    ensures TokenEvents(o, start, a + b, code) == TokenEvents(o, start, a, code)
    ensures TokenCode(o, start, a + b, code) == TokenCode(o, start, a, code)
  {
    NextBeforeLineFeed(start, a, b);
    assert (a + b)[0] == a[0];
  }

  /** A line feed is a seam of the meaning too: what a part that ends with one means, and the code block it leaves open,
      do not depend on what follows. */
  lemma {:induction false} RestSplit(o: Output, start: Start, a: string, b: string, code: string)
    returns (done: seq<Event>, open: string)
    requires Aligned(start, o.state) && (start != Code ==> code == "")
    requires a == "" || a[|a| - 1] == '\n'
    ensures var p, end := Ran(o, Scan(start, a)), FinalStart(start, a);
            && Aligned(end, p.state) && (end != Code ==> open == "")
            && RestMeaning(o, start, a, code) == Prepend(done, RestMeaning(p, end, "", open))
            && RestMeaning(o, start, a + b, code) == Prepend(done, RestMeaning(p, end, b, open))
    decreases |a|
  {
    hide RestMeaning, TokenEvents, TokenCode, Acted, Next, Consumed;
    if a == "" {
      done, open := [], code;
      assert a + b == b;
      PrependNothing(RestMeaning(o, start, b, code));
      PrependNothing(RestMeaning(o, start, "", code));
    } else {
      var next, rest := Begin(start, Next(start, a).0), a[Consumed(start, a)..];
      var o', code' := Acted(o, NextToken(start, a)), TokenCode(o, start, a, code);
      var events := TokenEvents(o, start, a, code);
      TokenBeforeLineFeed(start, a, b);
      SameToken(o, start, a, b, code);
      MeaningStep(o, start, a, code);
      MeaningStep(o, start, a + b, code);
      ScanStep(start, a, next, rest);
      RanScan(o, start, a);
      var later;
      later, open := RestSplit(o', next, rest, b, code');
      done := events + later;
      var p, end := Ran(o', Scan(next, rest)), FinalStart(next, rest);
      PrependTwice(events, later, RestMeaning(p, end, "", open));
      PrependTwice(events, later, RestMeaning(p, end, b, open));
    }
  }

  /** A part that ends with a line feed and in text has a meaning of its own, and what follows adds to it. */
  lemma RestConcat(o: Output, start: Start, a: string, b: string, code: string)
    requires Aligned(start, o.state) && (start != Code ==> code == "")
    requires a == "" || a[|a| - 1] == '\n'
    requires FinalStart(start, a) == Text
    ensures RestMeaning(o, start, a, code).Some?
    ensures RestMeaning(o, start, a + b, code) == Prepend(RestMeaning(o, start, a, code).value, TextMeaning(b))
  {
    hide RestMeaning, TextMeaning;
    var p := Ran(o, Scan(start, a));
    var done, open := RestSplit(o, start, a, b, code);
    RestInText(p, "");
    RestInText(p, b);
    NoMeaning();
    assert done + [] == done;
  }

  /** A document has no meaning exactly when it ends inside an expression block. */
  lemma {:induction false} MeaninglessExact(o: Output, start: Start, s: string, code: string)
    requires Aligned(start, o.state) && (start != Code ==> code == "")
    ensures RestMeaning(o, start, s, code) == None <==> Ran(o, Scan(start, s)).state == VarState
    decreases |s|
  {
    if s == "" {
    } else {
      hide RestMeaning, TokenEvents, TokenCode, Acted, Next, Consumed;
      RanScan(o, start, s);
      MeaningStep(o, start, s, code);
      MeaninglessExact(Acted(o, NextToken(start, s)), Begin(start, Next(start, s).0), s[Consumed(start, s)..],
                       TokenCode(o, start, s, code));
    }
  }
}
