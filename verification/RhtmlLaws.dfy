/** What a template means and what it compiles to, with the characters written out. */
module RhtmlLaws {
  import opened Options
  import opened RhtmlScanner
  import opened Substitution
  import opened RhtmlOutput
  import opened RhtmlTemplate
  import opened RhtmlMeaning
  import opened RhtmlTheorems

  // ---- The meaning of text ----

  /** Line ends of both kinds print a line feed; three pairs of characters print nothing. */
  lemma TextSpecials(rest: string)
    ensures TextMeaning("") == Some([])
    ensures TextMeaning("\n" + rest) == Prepend([Print('\n')], TextMeaning(rest))
    ensures TextMeaning("\r\n" + rest) == Prepend([Print('\n')], TextMeaning(rest))
    ensures TextMeaning("\\n" + rest) == TextMeaning(rest)
    ensures TextMeaning("\\r" + rest) == TextMeaning(rest)
    ensures TextMeaning("\\t" + rest) == TextMeaning(rest)
  {
    assert ("\n" + rest)[1..] == rest;
    assert ("\r\n" + rest)[2..] == rest;
    assert ("\\n" + rest)[2..] == rest && ("\\r" + rest)[2..] == rest && ("\\t" + rest)[2..] == rest;
  }

  lemma ExpressionMarkers(rest: string)
    ensures TextMeaning("<%=" + rest) == TextMeaning("{%=" + rest) == ExpressionMeaning(rest, "")
  {
    hide ExpressionMeaning, RemarkMeaning, BlockMeaning;
    assert ("<%=" + rest)[3..] == rest && ("{%=" + rest)[3..] == rest;
  }

  lemma CommentMarker(rest: string)
    ensures TextMeaning("<%--" + rest) == RemarkMeaning(rest)
  {
    hide ExpressionMeaning, RemarkMeaning, BlockMeaning;
    assert ("<%--" + rest)[4..] == rest;
  }

  lemma CodeMarker(rest: string)
    ensures !("=" <= rest) && !("--" <= rest) ==> TextMeaning("<%" + rest) == BlockMeaning(rest, "")
  {
    hide ExpressionMeaning, RemarkMeaning, BlockMeaning;
    var s := "<%" + rest;
    assert s[2..] == rest;
    assert |rest| >= 1 ==> s[2] == rest[0];
    assert |rest| >= 2 ==> s[3] == rest[1];
  }

  lemma BraceMarker(rest: string)
    ensures !("=" <= rest) ==> TextMeaning("{%" + rest) == BlockMeaning(rest, "")
  {
    hide ExpressionMeaning, RemarkMeaning, BlockMeaning;
    var s := "{%" + rest;
    assert s[2..] == rest;
    assert |rest| >= 1 ==> s[2] == rest[0];
  }

  /** The markers that open a block, with angle brackets or braces. Only the angle bracket opens a comment. */
  lemma TextMarkers(rest: string)
    ensures TextMeaning("<%=" + rest) == TextMeaning("{%=" + rest) == ExpressionMeaning(rest, "")
    ensures TextMeaning("<%--" + rest) == RemarkMeaning(rest)
    ensures !("=" <= rest) && !("--" <= rest) ==> TextMeaning("<%" + rest) == BlockMeaning(rest, "")
    ensures !("=" <= rest) ==> TextMeaning("{%" + rest) == BlockMeaning(rest, "")
  {
    hide TextMeaning, ExpressionMeaning, RemarkMeaning, BlockMeaning;
    ExpressionMarkers(rest);
    CommentMarker(rest);
    CodeMarker(rest);
    BraceMarker(rest);
  }

  /** Every other character prints itself. */
  lemma TextOther(c: char, rest: string)
    requires c != '\n' && !(c == '\r' && "\n" <= rest)
    requires !(c == '\\' && ("n" <= rest || "r" <= rest || "t" <= rest))
    requires !((c == '<' || c == '{') && "%" <= rest)
    ensures TextMeaning([c] + rest) == Prepend([Print(c)], TextMeaning(rest))
  {
    var s := [c] + rest;
    assert s[1..] == rest;
    if rest != "" {
      assert s[1] == rest[0];
    }
  }

  // ---- Inside blocks ----

  predicate StartsWithClose(s: string) {
    "%>" <= s || "%}" <= s
  }

  lemma CodeEnds(rest: string, code: string)
    ensures BlockMeaning("", code) == Some(Block(code))
    ensures BlockMeaning("%>" + rest, code) == BlockMeaning("%}" + rest, code)
      == Prepend(Block(code), TextMeaning(rest))
    ensures BlockMeaning("\n" + rest, code) == BlockMeaning("\r\n" + rest, code) == BlockMeaning(rest, code + "\n")
  {
    hide Block, TextMeaning;
    assert ("%>" + rest)[2..] == rest && ("%}" + rest)[2..] == rest;
    assert ("\n" + rest)[1..] == rest && ("\r\n" + rest)[2..] == rest;
  }

  /** Code is kept as it is, with CRLF as a line feed, up to either closing marker or the end of the document. */
  lemma CodeBlock(c: char, rest: string, code: string)
    ensures BlockMeaning("", code) == Some(Block(code))
    ensures BlockMeaning("%>" + rest, code) == BlockMeaning("%}" + rest, code)
      == Prepend(Block(code), TextMeaning(rest))
    ensures BlockMeaning("\n" + rest, code) == BlockMeaning("\r\n" + rest, code) == BlockMeaning(rest, code + "\n")
    ensures c != '\n' && !(c == '\r' && "\n" <= rest) && !StartsWithClose([c] + rest) ==>
      BlockMeaning([c] + rest, code) == BlockMeaning(rest, code + [c])
  {
    hide Block, TextMeaning;
    CodeEnds(rest, code);
    assert ([c] + rest)[1..] == rest;
    assert rest != "" ==> ([c] + rest)[1] == rest[0];
  }

  /** An expression is shown at its closing marker; its line ends are left out; without one there is no meaning. */
  lemma ExpressionBlock(c: char, rest: string, expr: string)
    ensures ExpressionMeaning("", expr) == None
    ensures ExpressionMeaning("%>" + rest, expr) == ExpressionMeaning("%}" + rest, expr)
      == Prepend([Show(expr)], TextMeaning(rest))
    ensures ExpressionMeaning("\n" + rest, expr) == ExpressionMeaning("\r\n" + rest, expr)
      == ExpressionMeaning(rest, expr)
    ensures c != '\n' && !(c == '\r' && "\n" <= rest) && !StartsWithClose([c] + rest) ==>
      ExpressionMeaning([c] + rest, expr) == ExpressionMeaning(rest, expr + [c])
  {
    assert ("%>" + rest)[2..] == rest && ("%}" + rest)[2..] == rest;
    assert ("\n" + rest)[1..] == rest && ("\r\n" + rest)[2..] == rest && ([c] + rest)[1..] == rest;
    assert rest != "" ==> ([c] + rest)[1] == rest[0];
  }

  lemma RemarkOneMore(c: char, rest: string)
    requires c != '%'
    ensures RemarkMeaning([c] + rest) == RemarkMeaning(rest)
  {
    assert ([c] + rest)[1..] == rest;
  }

  /** A comment does nothing up to its closing marker, with or without dashes. */
  lemma Remark(c: char, rest: string)
    ensures RemarkMeaning("") == Some([])
    ensures RemarkMeaning("%>" + rest) == RemarkMeaning("--%>" + rest) == TextMeaning(rest)
    ensures !("%>" <= [c] + rest) ==> RemarkMeaning([c] + rest) == RemarkMeaning(rest)
  {
    var close := "%>" + rest;
    assert close[2..] == rest;
    RemarkOneMore('-', close);
    RemarkOneMore('-', "-" + close);
    assert "--%>" + rest == "-" + ("-" + close);
    assert ([c] + rest)[1..] == rest;
    assert rest != "" ==> ([c] + rest)[1] == rest[0];
  }

  /** The characters that are idle, and what is left of a block: the code from its first character that is not idle to
      its last. */
  lemma IdleCharacters(c: char)
    ensures Idle(c) <==>
      c == ' ' || c == ';' || c == '\t' || c == '\n' || c == '\r' || c == 11 as char || c == 12 as char
  {
  }

  lemma {:induction false} LeadOfIdle(code: string)
    requires forall i :: 0 <= i < |code| ==> Idle(code[i])
    ensures Lead(code) == ""
    decreases |code|
  {
    if code == "" {
    } else {
      LeadOfIdle(code[..|code| - 1]);
    }
  }

  lemma LeadOfOne(c: char)
    ensures Lead("") == "" && Lead([c]) == if Idle(c) then "" else [c]
  {
    assert "" + [c] == [c];
    LeadSnoc("", c);
  }

  lemma {:induction false} LeadOfFront(code: string)
    requires code != ""
    ensures Lead(code) == if Idle(code[0]) then Lead(code[1..]) else code
    decreases |code|
  {
    hide Lead, Idle;
    if |code| == 1 {
      LeadOfOne(code[0]);
      assert code == [code[0]] && code[1..] == "";
    } else {
      var front, c := code[..|code| - 1], code[|code| - 1];
      LeadOfFront(front);
      assert front[1..] + [c] == code[1..] && front + [c] == code;
      LeadSnoc(front[1..], c);
      LeadSnoc(front, c);
    }
  }

  lemma LeadLast(code: string)
    requires code != ""
    ensures var c, front := code[|code| - 1], code[..|code| - 1];
            Idle(c) ==> Trail(Lead(code)) == Trail(Lead(front)) && (Lead(code) == "" <==> Lead(front) == "")
  {
    var c, front := code[|code| - 1], code[..|code| - 1];
    assert (Lead(front) + [c])[..|Lead(front)|] == Lead(front);
  }

  lemma BlockIs(code: string)
    ensures (forall i :: 0 <= i < |code| ==> Idle(code[i])) ==> Block(code) == []
    ensures code != "" && !Idle(code[0]) && !Idle(code[|code| - 1]) ==> Block(code) == [Execute(code)]
    ensures code != "" && Idle(code[0]) ==> Block(code) == Block(code[1..])
    ensures code != "" && Idle(code[|code| - 1]) ==> Block(code) == Block(code[..|code| - 1])
  {
    if code != "" {
      LeadOfFront(code);
      LeadLast(code);
      if forall i :: 0 <= i < |code| ==> Idle(code[i]) {
        LeadOfIdle(code);
      }
    } else {
      LeadOfIdle(code);
    }
  }

  // ---- What is put out ----

  /** The escapes of a double-quoted literal, by character. */
  lemma Escapes(c: char)
    ensures EscapeChar('\\') == "\\\\" && EscapeChar('\"') == "\\\"" && EscapeChar('#') == "\\#"
    ensures c != '\\' && c != '\"' && c != '#' ==> EscapeChar(c) == [c]
    ensures Escape("") == "" && Escape([c]) == EscapeChar(c)
  {
    assert EscapeChar(c) + "" == EscapeChar(c);
  }

  /** Characters of text that the scanner hands on one by one. */
  predicate IsText(t: string) {
    forall i :: 0 <= i < |t| ==> t[i] != '<' && t[i] != '{' && t[i] != '\\' && t[i] != '\r' && t[i] != '\n'
  }

  predicate IsCode(code: string) {
    forall i :: 0 <= i < |code| ==> code[i] != '%' && code[i] != '\r' && code[i] != '\n'
  }

  function WithText(o: Output, t: string): Output {
    if t == "" then o else ReadIn(o, t)
  }

  lemma EmitConcat(a: string, b: string, line: int)
    ensures Emit(a) + Emit(b) == Emit(a + b) && Copy(a, line) + Copy(b, line) == Copy(a + b, line)
  {
  }

  lemma Join(a: seq<Glyph>, b: seq<Glyph>, c: seq<Glyph>)
    ensures a + b + c == a + (b + c)
  {
  }

  lemma ReadTwice(o: Output, c: char, t: string)
    ensures WithText(ReadIn(o, [c]), t) == ReadIn(o, [c] + t)
  {
    hide Escape, Emit, Copy;
    EscapeDistributes([c], t);
    Escapes(c);
    EmitConcat(Escape([c]), Escape(t), 0);
    EmitConcat([c], t, o.current);
    assert |Emit(EscapeChar(c))| > 0;
    if t == "" {
      assert [c] + t == [c];
    } else if o.state == TextState {
      var q := if o.line == [] then Emit("print \"") else o.line;
      Join(q, Emit(Escape([c])), Emit(Escape(t)));
    } else {
      Join(o.line, Copy([c], o.current), Copy(t, o.current));
    }
  }

  lemma ReadKeepsState(o: Output, t: string)
    ensures ReadIn(o, t).state == o.state
  {
  }

  lemma {:induction false} RunText(o: Output, t: string, rest: string)
    requires o.state == TextState && IsText(t)
    ensures Ran(o, Scan(Text, t + rest)) == Ran(WithText(o, t), Scan(Text, rest))
    decreases |t|
  {
    hide Scan, Ran, ReadIn;
    if t == "" {
      assert t + rest == rest;
    } else {
      var s := t + rest;
      assert s[..1] == [t[0]] && s[1..] == t[1..] + rest && t == [t[0]] + t[1..];
      RanScan(o, Text, s);
      ReadKeepsState(o, [t[0]]);
      RunText(ReadIn(o, [t[0]]), t[1..], rest);
      ReadTwice(o, t[0], t[1..]);
    }
  }

  lemma {:induction false} RunCode(o: Output, code: string, rest: string)
    requires (o.state == CodeState || o.state == VarState) && IsCode(code)
    ensures Ran(o, Scan(Code, code + rest)) == Ran(WithText(o, code), Scan(Code, rest))
    decreases |code|
  {
    hide Scan, Ran, ReadIn;
    if code == "" {
      assert code + rest == rest;
    } else {
      var s := code + rest;
      assert s[..1] == [code[0]] && s[1..] == code[1..] + rest && code == [code[0]] + code[1..];
      RanScan(o, Code, s);
      ReadKeepsState(o, [code[0]]);
      RunCode(ReadIn(o, [code[0]]), code[1..], rest);
      ReadTwice(o, code[0], code[1..]);
    }
  }

  /** The line end of a line of text. */
  lemma RunLineEnd(o: Output)
    ensures Ran(o, Scan(Text, "\n")) == LineEnded(o)
  {
    var s := "\n";
    RanScan(o, Text, s);
    assert s[1..] == "" && Scan(Text, "") == [];
  }

  /** `print "..."` around a text, ending its line. */
  function Printed(t: string): string {
    "print \"" + Escape(t) + "\\n\"\n"
  }

  lemma RendersAre(s: string, line: int)
    ensures Render(Emit(s)) == s && Render(Copy(s, line)) == s
  {
  }

  lemma RenderParts(a: string, b: string, c: string)
    ensures Render(Emit(a) + Emit(b) + Emit(c)) == a + b + c
  {
  }

  /** A line of text from an empty line: one `print`. */
  lemma TextLine(o: Output, t: string)
    requires o.state == TextState && o.line == [] && IsText(t)
    ensures var p := Ran(o, Scan(Text, t + "\n")); Render(p.text) == Render(o.text) + Printed(t)
  {
    RunText(o, t, "\n");
    RunLineEnd(WithText(o, t));
    var p := LineEnded(WithText(o, t));
    Escapes('a');
    var g := Emit("print \"") + Emit(Escape(t)) + Emit("\\n\"\n");
    assert Emit(Escape("")) == [];
    assert p.text == o.text + g;
    RenderAppend(o.text, g);
    RenderParts("print \"", Escape(t), "\\n\"\n");
  }

  /** A document of one line of text. */
  lemma TextDocument(t: string)
    requires IsText(t)
    ensures Render(Compiled(FRESH, t + "\n").text) == Printed(t)
  {
    RanFromInitial(FRESH, t + "\n");
    assert Cleared(FRESH) == FRESH;
    TextLine(FRESH, t);
    assert Render([]) == "";
    assert "" + Printed(t) == Printed(t);
  }

  // ---- A line with a block in it ----

  /** Everything put out so far. */
  function Shown(o: Output): string {
    Render(Whole(o))
  }

  lemma ShownMore(o: Output, p: Output, s: string, line: int)
    requires p.text == o.text && (p.line == o.line + Emit(s) || p.line == o.line + Copy(s, line))
    ensures Shown(p) == Shown(o) + s
  {
    RendersAre(s, line);
    var more := if p.line == o.line + Emit(s) then Emit(s) else Copy(s, line);
    assert Whole(p) == Whole(o) + more;
    RenderAppend(Whole(o), more);
  }

  lemma ShownText(o: Output, t: string)
    requires o.state == TextState
    ensures var p := WithText(o, t);
            && p.state == TextState && p.text == o.text && (p.line == [] <==> o.line == [] && t == "")
            && Shown(p) == Shown(o) + (if t != "" && o.line == [] then "print \"" else "") + Escape(t)
  {
    hide Shown;
    Escapes('a');
    if t == "" {
      assert Shown(o) + "" + "" == Shown(o);
    } else {
      var q := o.(line := if o.line == [] then Emit("print \"") else o.line);
      if o.line == [] {
        assert o.line + Emit("print \"") == Emit("print \"");
        ShownMore(o, q, "print \"", 0);
      } else {
        assert q == o && Shown(o) + "" == Shown(o);
      }
      ShownMore(q, WithText(o, t), Escape(t), 0);
      CharFillsLine(o, t);
    }
  }

  lemma SameShown(o: Output, p: Output)
    requires Whole(o) == Whole(p)
    ensures Shown(o) == Shown(p)
  {
  }

  lemma ShownOpen(o: Output, s: State)
    requires o.state == TextState && (s == CodeState || s == VarState)
    ensures var p := Changed(o, s);
            && p.state == s && p.text == o.text && (p.line == [] <==> o.line == [])
            && Shown(p) == Shown(o) + if o.line == [] then "" else "\"; "
  {
    hide Shown;
    if o.line == [] {
      assert Whole(Changed(o, s)) == Whole(o) && Shown(o) + "" == Shown(o);
      SameShown(o, Changed(o, s));
    } else {
      ShownMore(o, Changed(o, s), "\"; ", 0);
      assert |Emit("\"; ")| == 3;
    }
  }

  lemma ShownCode(o: Output, code: string)
    requires o.state == CodeState || o.state == VarState
    ensures var p := WithText(o, code);
            && p.state == o.state && p.text == o.text && (p.line == [] <==> o.line == [] && code == "")
            && Shown(p) == Shown(o) + code
  {
    hide Shown;
    if code == "" {
      assert Shown(o) + "" == Shown(o);
    } else {
      ShownMore(o, WithText(o, code), code, o.current);
    }
  }

  lemma ShownClose(o: Output)
    requires (o.state == CodeState || o.state == VarState) && o.line != []
    ensures var p := Changed(o, TextState);
            p.state == TextState && p.text == o.text && p.line != [] && Shown(p) == Shown(o) + "; print \""
  {
    hide Shown;
    var q := o.(line := o.line + Emit("; "));
    ShownMore(o, q, "; ", 0);
    ShownMore(q, q.(line := q.line + Emit("print \"")), "print \"", 0);
    SameShown(q.(line := q.line + Emit("print \"")), Changed(o, TextState));
    assert Shown(o) + "; " + "print \"" == Shown(o) + "; print \"";
    assert |Emit("print \"")| == 7;
  }

  lemma RenderOfWhole(o: Output)
    requires o.line == []
    ensures Shown(o) == Render(o.text)
  {
    assert Whole(o) == o.text;
  }

  lemma ShownEnd(o: Output)
    requires o.state == TextState && o.line != []
    ensures Render(LineEnded(o).text) == Shown(o) + "\\n\"\n"
  {
    hide Shown;
    var q := o.(line := o.line + Emit("\\n\"\n"));
    ShownMore(o, q, "\\n\"\n", 0);
    assert LineEnded(o).text == Whole(q) && Whole(LineEnded(o)) == LineEnded(o).text;
    SameShown(LineEnded(o), q);
    RenderOfWhole(LineEnded(o));
  }

  /** What stands before a block on its line. */
  function Before(t: string): string {
    if t == "" then "" else "print \"" + Escape(t) + "\"; "
  }

  /** What stands after one. */
  function After(t: string): string {
    "; print \"" + Escape(t) + "\\n\"\n"
  }

  lemma FreshShowsNothing()
    ensures Shown(FRESH) == ""
  {
  }

  lemma NothingAround(s: string)
    ensures "" + s == s && s + "" == s
  {
  }

  /** Text up to a block, and the block opened. */
  lemma OpenBlock(t: string, s: State)
    requires s == CodeState || s == VarState
    ensures var p := Changed(WithText(FRESH, t), s);
            p.state == s && p.text == [] && Shown(p) == Before(t)
  {
    hide Shown, Escape, Changed, WithText;
    ShownText(FRESH, t);
    ShownOpen(WithText(FRESH, t), s);
    FreshShowsNothing();
    if t == "" {
      Escapes('a');
      NothingAround("");
    } else {
      NothingAround("print \"");
    }
  }

  /** The rest of the line after a block. */
  lemma RestOfLine(o: Output, t: string)
    requires o.state == TextState && o.line != [] && IsText(t)
    ensures Render(Ran(o, Scan(Text, t + "\n")).text) == Shown(o) + Escape(t) + "\\n\"\n"
  {
    hide Shown, Scan, Ran;
    RunText(o, t, "\n");
    ShownText(o, t);
    RunLineEnd(WithText(o, t));
    ShownEnd(WithText(o, t));
    assert Shown(o) + "" == Shown(o);
  }

  /** The token a marker makes. */
  lemma RunMarker(o: Output, start: Start, marker: string, rest: string, rule: Rule, next: Start)
    requires marker != "" && start != Initial
    requires Next(start, marker + rest) == (rule, |marker|) && Begin(start, rule) == next
    ensures Ran(o, Scan(start, marker + rest)) == Ran(Acted(o, Token(rule, marker)), Scan(next, rest))
  {
    hide Scan, Ran, Next, Acted;
    var s := marker + rest;
    assert s[..|marker|] == marker && s[|marker|..] == rest;
    RanScan(o, start, s);
  }

  lemma Markers(rest: string)
    ensures Next(Text, "<%=" + rest) == (OpenExpr, 3)
    ensures Next(Code, "%>" + rest) == (CloseCode, 2)
    ensures rest != "" && rest[0] != '=' && rest[0] != '-' ==> Next(Text, "<%" + rest) == (OpenCode, 2)
  {
    assert rest != "" ==> ("<%" + rest)[2] == rest[0];
  }

  lemma Chain(a: string, b: string, c: string)
    ensures a + b + "; print \"" + c + "\\n\"\n" == a + b + ("; print \"" + c + "\\n\"\n")
  {
  }

  /** From inside a code block to the end of its line. */
  lemma CodeToEnd(o: Output, code: string, t: string)
    requires o.state == CodeState && IsCode(code) && code != "" && IsText(t) && o.text == []
    ensures Render(Ran(o, Scan(Code, code + ("%>" + (t + "\n")))).text) == Shown(o) + code + After(t)
  {
    hide Shown, Scan, Ran, Escape, Next, Changed, WithText;
    var rest := "%>" + (t + "\n");
    RunCode(o, code, rest);
    ShownCode(o, code);
    var p := WithText(o, code);
    Markers(t + "\n");
    RunMarker(p, Code, "%>", t + "\n", CloseCode, Text);
    ShownClose(p);
    RestOfLine(Changed(p, TextState), t);
    Chain(Shown(o), code, Escape(t));
  }

  /** A line with a code block in it. */
  lemma CodeDocument(t1: string, code: string, t2: string)
    requires IsText(t1) && IsText(t2) && IsCode(code) && code != "" && code[0] != '=' && code[0] != '-'
    ensures Render(Compiled(FRESH, t1 + ("<%" + (code + ("%>" + (t2 + "\n"))))).text) == Before(t1) + code + After(t2)
  {
    hide Shown, Scan, Ran, Escape, Next, WithText, Before, After;
    var rest := code + ("%>" + (t2 + "\n"));
    var doc := t1 + ("<%" + rest);
    RanFromInitial(FRESH, doc);
    assert Cleared(FRESH) == FRESH;
    RunText(FRESH, t1, "<%" + rest);
    ShownText(FRESH, t1);
    OpenBlock(t1, CodeState);
    assert rest[0] == code[0];
    Markers(rest);
    RunMarker(WithText(FRESH, t1), Text, "<%", rest, OpenCode, Code);
    CodeToEnd(Changed(WithText(FRESH, t1), CodeState), code, t2);
  }

  /** From inside an expression block to the end of its line. */
  lemma ExpressionToEnd(o: Output, expr: string, t: string)
    requires o.state == VarState && IsCode(expr) && IsText(t) && o.text == []
    ensures Render(Ran(o, Scan(Code, expr + ("%>" + (t + "\n")))).text) == Shown(o) + expr + "))" + After(t)
  {
    hide Shown, Scan, Ran, Escape, Next, Changed, WithText;
    var rest := "%>" + (t + "\n");
    RunCode(o, expr, rest);
    ShownCode(o, expr);
    var p := WithText(o, expr);
    var q := Appended(p, "))");
    Markers(t + "\n");
    RunMarker(p, Code, "%>", t + "\n", CloseCode, Text);
    ShownMore(p, q, "))", 0);
    assert |Emit("))")| == 2;
    ShownClose(q);
    RestOfLine(Changed(q, TextState), t);
    Chain(Shown(o) + expr, "))", Escape(t));
  }

  /** A line with an expression in it. */
  lemma ExpressionDocument(t1: string, expr: string, t2: string)
    requires IsText(t1) && IsText(t2) && IsCode(expr)
    ensures Render(Compiled(FRESH, t1 + ("<%=" + (expr + ("%>" + (t2 + "\n"))))).text) ==
      Before(t1) + "print((" + expr + "))" + After(t2)
  {
    hide Shown, Scan, Ran, Escape, Next, WithText, Before, After;
    var rest := expr + ("%>" + (t2 + "\n"));
    var doc := t1 + ("<%=" + rest);
    RanFromInitial(FRESH, doc);
    assert Cleared(FRESH) == FRESH;
    RunText(FRESH, t1, "<%=" + rest);
    ShownText(FRESH, t1);
    OpenBlock(t1, VarState);
    Markers(rest);
    RunMarker(WithText(FRESH, t1), Text, "<%=", rest, OpenExpr, Code);
    var p := Changed(WithText(FRESH, t1), VarState);
    ShownMore(p, Appended(p, "print(("), "print((", 0);
    ExpressionToEnd(Appended(p, "print(("), expr, t2);
  }

  /** The line on which a block begins is the current one, and a change of state ends no line. */
  lemma BlockStart(o: Output, s: State)
    ensures var p := Changed(o, s); p.blockStart == o.current == p.current && p.state == s && p.text == o.text
  {
  }

  lemma PrintsAre(s: string, i: nat)
    requires i < |s|
    ensures Prints(s)[i] == Print(s[i])
  {
  }
}
