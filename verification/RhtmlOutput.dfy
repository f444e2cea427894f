/** What the parser methods of src/rhtml.cpp make of the token stream, as functions on its fields.
    Each character of output remembers whether the parser made it up or copied it from the template. */
module RhtmlOutput {
  import opened RhtmlScanner
  import opened Substitution

  datatype State = CodeState | VarState | CommentState | TextState

  /** A copied character carries the value `_current_line` had when it was read. */
  datatype Glyph = Emitted(c: char) | Copied(c: char, line: int)

  datatype Output = Output(text: seq<Glyph>, line: seq<Glyph>, state: State, blockStart: int, current: int)

  function Emit(s: string): (g: seq<Glyph>)
    ensures |g| == |s|
  {
    seq(|s|, i requires 0 <= i < |s| => Emitted(s[i]))
  }

  function Copy(s: string, line: int): (g: seq<Glyph>)
    ensures |g| == |s|
  {
    seq(|s|, i requires 0 <= i < |s| => Copied(s[i], line))
  }

  /** The characters themselves: what the source's strings hold. */
  function Render(g: seq<Glyph>): (s: string)
    ensures |s| == |g|
  {
    seq(|g|, i requires 0 <= i < |g| => g[i].c)
  }

  function Appended(o: Output, t: string): Output {
    o.(line := o.line + Emit(t))
  }

  function ReadIn(o: Output, t: string): Output {
    if o.state == TextState then
      o.(line := (if o.line == [] then Emit("print \"") else o.line) + Emit(Escape(t)))
    else
      o.(line := o.line + Copy(t, o.current))
  }

  function Changed(o: Output, s: State): Output {
    var line :=
      match o.state
      case VarState => (if o.line != [] then o.line + Emit("; ") else o.line) + Emit("print \"")
      case CodeState => (if o.line != [] then o.line + Emit("; ") else o.line) + Emit("print \"")
      case CommentState => o.line
      case TextState => if o.line != [] then o.line + Emit("\"; ") else o.line;
    o.(line := line, state := s, blockStart := o.current)
  }

  /** The finished line. The line end of a code block is the template's own, so it counts as copied. */
  function EndedLine(o: Output): seq<Glyph> {
    match o.state
    case CodeState => o.line + Copy("\n", o.current)
    case CommentState => o.line
    case TextState => (if o.line == [] then Emit("print \"") else o.line) + Emit("\\n\"\n")
    case VarState => o.line
  }

  function LineEnded(o: Output): Output {
    o.(text := o.text + EndedLine(o), line := [], current := o.current + 1)
  }

  /** The action of a scanner rule. */
  function Acted(o: Output, token: Token): Output {
    match token.rule
    case Restart => o
    case Swallow => o
    case OpenCode => Changed(o, CodeState)
    case OpenExpr => Appended(Changed(o, VarState), "print((")
    case CloseCode => Changed(if o.state == VarState then Appended(o, "))") else o, TextState)
    case OpenComment => Changed(o, CommentState)
    case CloseComment => Changed(o, TextState)
    case LeaveComment => o
    case Char => ReadIn(o, token.lexeme)
    case LineEnd => LineEnded(o)
  }

  function Ran(o: Output, tokens: seq<Token>): Output
    decreases |tokens|
  {
    if tokens == [] then o else Ran(Acted(o, tokens[0]), tokens[1..])
  }

  /** The fields of a new parser. */
  const FRESH := Output([], [], TextState, 1, 1)

  /** `init` clears the two strings and nothing else. */
  function Cleared(o: Output): Output {
    o.(text := [], line := [])
  }

  /** `compile_text` on a parser whose fields are `o`. */
  function Compiled(o: Output, doc: string): Output {
    Changed(Ran(Cleared(o), Scan(Initial, doc)), TextState)
  }

  lemma {:induction false} RanConcat(o: Output, a: seq<Token>, b: seq<Token>)
    ensures Ran(o, a + b) == Ran(Ran(o, a), b)
    decreases |a|
  {
    if a == [] {
      assert a + b == b;
    } else {
      assert (a + b)[1..] == a[1..] + b;
      RanConcat(Acted(o, a[0]), a[1..], b);
    }
  }

  lemma RanScan(o: Output, start: Start, s: string)
    requires s != ""
    ensures Ran(o, Scan(start, s)) ==
      Ran(Acted(o, NextToken(start, s)), Scan(Begin(start, Next(start, s).0), s[Consumed(start, s)..]))
  {
    var rest := Scan(Begin(start, Next(start, s).0), s[Consumed(start, s)..]);
    assert Scan(start, s)[0] == NextToken(start, s);
    assert Scan(start, s)[1..] == rest;
  }

  // ---- Compilation is compositional ----

  lemma RenderAppend(a: seq<Glyph>, b: seq<Glyph>)
    ensures Render(a + b) == Render(a) + Render(b)
  {
  }

  lemma CopiedAlike(s: string, i: int, j: int)
    ensures Render(Copy(s, i)) == Render(Copy(s, j)) == s
  {
  }

  lemma AppendedShift(o: Output, p: Output, t: string)
    requires Render(o.line) == Render(p.line)
    ensures Render(Appended(o, t).line) == Render(Appended(p, t).line)
  {
    RenderAppend(o.line, Emit(t));
    RenderAppend(p.line, Emit(t));
  }

  lemma ChangedShift(o: Output, p: Output, s: State)
    requires Render(o.line) == Render(p.line) && o.state == p.state
    ensures Render(Changed(o, s).line) == Render(Changed(p, s).line)
  {
    assert |o.line| == |p.line|;
    if o.line == [] {
      assert p.line == [];
    } else {
      AppendedShift(o, p, "; ");
      AppendedShift(Appended(o, "; "), Appended(p, "; "), "print \"");
      AppendedShift(o, p, "\"; ");
    }
  }

  lemma LineEndShift(o: Output, p: Output, before: seq<Glyph>)
    requires Render(o.text) == Render(before + p.text) && Render(o.line) == Render(p.line) && o.state == p.state
    requires Render(o.line + Copy("\n", o.current)) == Render(p.line + Copy("\n", p.current))
    ensures Render(LineEnded(o).text) == Render(before + LineEnded(p).text)
  {
    assert |o.line| == |p.line|;
    if o.line == [] {
      assert p.line == [];
    } else {
      AppendedShift(o, p, "\\n\"\n");
    }
    var lo, lp := EndedLine(o), EndedLine(p);
    RenderAppend(o.text, lo);
    RenderAppend(before + p.text, lp);
    assert before + (p.text + lp) == before + p.text + lp;
  }

  lemma ActedShift(o: Output, p: Output, token: Token, before: seq<Glyph>)
    requires Render(o.text) == Render(before + p.text) && Render(o.line) == Render(p.line) && o.state == p.state
    ensures var o', p' := Acted(o, token), Acted(p, token);
            Render(o'.text) == Render(before + p'.text) && Render(o'.line) == Render(p'.line) && o'.state == p'.state
  {
    assert |o.line| == |p.line|;
    var o', p' := Acted(o, token), Acted(p, token);
    match token.rule {
      case Char =>
        CopiedAlike(token.lexeme, o.current, p.current);
        RenderAppend(o.line, Copy(token.lexeme, o.current));
        RenderAppend(p.line, Copy(token.lexeme, p.current));
        RenderAppend(o.line, Emit(Escape(token.lexeme)));
        RenderAppend(p.line, Emit(Escape(token.lexeme)));
        if o.line == [] { assert p.line == []; }
      case LineEnd =>
        CopiedAlike("\n", o.current, p.current);
        RenderAppend(o.line, Copy("\n", o.current));
        RenderAppend(p.line, Copy("\n", p.current));
        LineEndShift(o, p, before);
      case OpenCode => ChangedShift(o, p, CodeState);
      case OpenExpr =>
        ChangedShift(o, p, VarState);
        AppendedShift(Changed(o, VarState), Changed(p, VarState), "print((");
      case CloseCode =>
        AppendedShift(o, p, "))");
        var oo := if o.state == VarState then Appended(o, "))") else o;
        var pp := if p.state == VarState then Appended(p, "))") else p;
        ChangedShift(oo, pp, TextState);
      case OpenComment => ChangedShift(o, p, CommentState);
      case CloseComment => ChangedShift(o, p, TextState);
      case _ =>
    }
  }

  /** What was flushed earlier, and the line count, have no influence on what is made next. */
  lemma {:induction false} RanShift(o: Output, p: Output, tokens: seq<Token>, before: seq<Glyph>)
    requires Render(o.text) == Render(before + p.text) && Render(o.line) == Render(p.line) && o.state == p.state
    ensures var o', p' := Ran(o, tokens), Ran(p, tokens);
            Render(o'.text) == Render(before + p'.text) && Render(o'.line) == Render(p'.line) && o'.state == p'.state
    decreases |tokens|
  {
    if tokens == [] {
    } else {
      ActedShift(o, p, tokens[0], before);
      RanShift(Acted(o, tokens[0]), Acted(p, tokens[0]), tokens[1..], before);
    }
  }
}
