/** A reader for the Ruby the parser emits. Emitted characters are read one by one, as Ruby would lex them:
    `print "..."` with its escapes, `print((...))`, `;` and line feeds. Characters copied from the template's code
    are opaque. From its first character that is not idle on, a copied run is one fragment, taken to be
    self-delimiting; only a `;` or a line feed ends it. */
module RubyReader {
  import opened Options
  import opened RhtmlOutput
  import opened Substitution
  import opened RhtmlTemplate

  datatype Mode =
    | Statement
    | Word(n: nat)                // this much of `print` has been read
    | Spaced                      // `print `
    | Paren                       // `print(`
    | Literal
    | Escaping                    // after a backslash in a literal
    | Closed                      // after a finished `print`
    | Fragment(code: string)
    | Expression(expr: string)
    | Closing(expr: string)       // after the first of two closing parentheses
    | Broken

  datatype Reader = Reader(mode: Mode, events: seq<Event>)

  const START := Reader(Statement, [])

  predicate EndsLine(code: string) {
    code != "" && code[|code| - 1] == '\n'
  }

  function Step(r: Reader, g: Glyph): Reader {
    match r.mode
    case Statement =>
      if Idle(g.c) then r
      else if g.Copied? then r.(mode := Fragment([g.c]))
      else if g.c == 'p' then r.(mode := Word(1))
      else r.(mode := Broken)
    case Word(n) =>
      if g.Copied? then r.(mode := Broken)
      else if n < 5 then r.(mode := if g.c == "print"[n] then Word(n + 1) else Broken)
      else r.(mode := if g.c == ' ' then Spaced else if g.c == '(' then Paren else Broken)
    case Spaced =>
      r.(mode := if g == Emitted('\"') then Literal else Broken)
    case Paren =>
      r.(mode := if g == Emitted('(') then Expression("") else Broken)
    case Literal =>
      if (g.Copied? && !Idle(g.c)) || g.c == '#' then r.(mode := Broken)
      else if g.c == '\"' then r.(mode := Closed)
      else if g.c == '\\' then r.(mode := Escaping)
      else r.(events := r.events + [Print(g.c)])
    case Escaping =>
      if g.Copied? then r.(mode := Broken)
      else if g.c == 'n' then Reader(Literal, r.events + [Print('\n')])
      else if g.c == '\\' || g.c == '\"' || g.c == '#' then Reader(Literal, r.events + [Print(g.c)])
      else r.(mode := Broken)
    case Closed =>
      r.(mode := if g == Emitted(';') || g == Emitted('\n') then Statement else Broken)
    case Fragment(code) =>
      if g.Copied? then r.(mode := Fragment(code + [g.c]))
      else if g.c == ';' then Reader(Statement, r.events + [Execute(Trail(code))])
      else if g.c == 'p' && EndsLine(code) then Reader(Word(1), r.events + [Execute(Trail(code))])
      else r.(mode := Broken)
    case Expression(expr) =>
      r.(mode := if g.Copied? then Expression(expr + [g.c]) else if g.c == ')' then Closing(expr) else Broken)
    case Closing(expr) =>
      if g == Emitted(')') then Reader(Closed, r.events + [Show(expr)]) else r.(mode := Broken)
    case Broken => r
  }

  function Feed(r: Reader, g: seq<Glyph>): Reader
    decreases |g|
  {
    if g == [] then r else Feed(Step(r, g[0]), g[1..])
  }

  /** The end of the program: nothing may be left open. */
  function Finish(r: Reader): Option<seq<Event>> {
    match r.mode
    case Statement => Some(r.events)
    case Closed => Some(r.events)
    case Fragment(code) => Some(r.events + [Execute(Trail(code))])
    case _ => None
  }

  /** What running the emitted program does, or None if it is not a program of this shape. */
  function Behaviour(program: seq<Glyph>): Option<seq<Event>> {
    Finish(Feed(START, program))
  }

  /** The same for a plain string: all of it is read character by character. */
  function StringBehaviour(program: string): Option<seq<Event>> {
    Behaviour(Emit(program))
  }

  lemma {:induction false} FeedConcat(r: Reader, a: seq<Glyph>, b: seq<Glyph>)
    ensures Feed(r, a + b) == Feed(Feed(r, a), b)
    decreases |a|
  {
    if a == [] {
      assert a + b == b;
    } else {
      assert (a + b)[1..] == a[1..] + b;
      FeedConcat(Step(r, a[0]), a[1..], b);
    }
  }

  lemma FeedEmit(r: Reader, s: string)
    requires s != ""
    ensures Feed(r, Emit(s)) == Feed(Step(r, Emitted(s[0])), Emit(s[1..]))
  {
    assert Emit(s)[1..] == Emit(s[1..]);
  }

  lemma FeedEmit1(r: Reader, s: string)
    requires |s| == 1
    ensures Feed(r, Emit(s)) == Step(r, Emitted(s[0]))
  {
    FeedEmit(r, s);
    assert Emit(s[1..]) == [];
  }

  lemma FeedEmit2(r: Reader, s: string)
    requires |s| == 2
    ensures Feed(r, Emit(s)) == Step(Step(r, Emitted(s[0])), Emitted(s[1]))
  {
    FeedEmit(r, s);
    FeedEmit1(Step(r, Emitted(s[0])), s[1..]);
  }

  lemma FeedCopy1(r: Reader, s: string, line: int)
    requires |s| == 1
    ensures Feed(r, Copy(s, line)) == Step(r, Copied(s[0], line))
  {
    assert Copy(s, line)[1..] == [];
  }

  /** `print` read from `Word(1)`. */
  lemma FeedPrint(r: Reader, rest: string)
    requires r.mode == Word(1)
    ensures Feed(r, Emit("rint" + rest)) == Feed(r.(mode := Word(5)), Emit(rest))
  {
    var s := "rint" + rest;
    assert s[1..] == "int" + rest;
    assert ("int" + rest)[1..] == "nt" + rest;
    assert ("nt" + rest)[1..] == "t" + rest;
    assert ("t" + rest)[1..] == rest;
    FeedEmit(r, s);
    FeedEmit(r.(mode := Word(2)), "int" + rest);
    FeedEmit(r.(mode := Word(3)), "nt" + rest);
    FeedEmit(r.(mode := Word(4)), "t" + rest);
  }

  /** `print "` opens a literal at the start of a statement, and after code that ends its line. */
  lemma FeedOpen(r: Reader)
    requires r.mode == Statement || (r.mode.Fragment? && EndsLine(r.mode.code))
    ensures Feed(r, Emit("print \"")) ==
      Reader(Literal, r.events + if r.mode == Statement then [] else [Execute(Trail(r.mode.code))])
  {
    hide Feed;
    hide Trail;
    var events := r.events + if r.mode == Statement then [] else [Execute(Trail(r.mode.code))];
    assert r.events + [] == r.events;
    FeedEmit(r, "print \"");
    assert "print \""[1..] == "rint" + " \"";
    FeedPrint(Reader(Word(1), events), " \"");
    FeedEmit2(Reader(Word(5), events), " \"");
  }

  /** `print((` opens an expression. */
  lemma FeedOpenExpression(r: Reader)
    requires r.mode == Statement
    ensures Feed(r, Emit("print((")) == r.(mode := Expression(""))
  {
    FeedEmit(r, "print((");
    assert "print(("[1..] == "rint" + "((";
    var r1 := r.(mode := Word(1));
    assert Step(r, Emitted('p')) == r1;
    FeedPrint(r1, "((");
    FeedEmit2(r.(mode := Word(5)), "((");
  }

  /** An escaped character reads back as itself. */
  lemma FeedEscapedChar(r: Reader, c: char)
    requires r.mode == Literal
    ensures Feed(r, Emit(EscapeChar(c))) == r.(events := r.events + [Print(c)])
  {
    if c == '\\' || c == '\"' || c == '#' {
      FeedEmit2(r, EscapeChar(c));
    } else {
      FeedEmit1(r, EscapeChar(c));
    }
  }

  /** The tail of a printed line: the escaped line feed, the closing quote, the end of the line. */
  lemma FeedLineEnd(r: Reader)
    requires r.mode == Literal
    ensures Feed(r, Emit("\\n\"\n")) == Reader(Statement, r.events + [Print('\n')])
  {
    hide Feed;
    FeedEmit(r, "\\n\"\n");
    assert "\\n\"\n"[1..] == "n\"\n";
    FeedEmit(r.(mode := Escaping), "n\"\n");
    assert "n\"\n"[1..] == "\"\n";
    FeedEmit2(Reader(Literal, r.events + [Print('\n')]), "\"\n");
  }
}
