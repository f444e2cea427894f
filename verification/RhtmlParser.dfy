/** The parser object of src/rhtml.cpp and src/rhtml.lex. Each method is tied to its function on the fields. */
module RhtmlParser {
  import opened Options
  import opened RhtmlScanner
  import opened Substitution
  import opened RhtmlOutput
  import opened RhtmlTemplate
  import opened RubyReader
  import opened RhtmlMeaning
  import opened RhtmlTheorems
  import opened RhtmlQuotes

  class Parser {
    var text: string
    var line: string
    var state: State
    var blockStartLine: int
    var currentLine: int

    // the same two strings, with the origin of each character
    ghost var textGlyphs: seq<Glyph>
    ghost var lineGlyphs: seq<Glyph>

    ghost predicate Valid()
      reads this
    {
      text == Render(textGlyphs) && line == Render(lineGlyphs)
    }

    ghost function Model(): Output
      reads this
    {
      Output(textGlyphs, lineGlyphs, state, blockStartLine, currentLine)
    }

    constructor ()
      ensures Valid() && Model() == FRESH
    {
      text, line, state, blockStartLine, currentLine := "", "", TextState, 1, 1;
      textGlyphs, lineGlyphs := [], [];
    }

    method Append(t: string)
      requires Valid()
      modifies this`line, this`lineGlyphs
      ensures Valid() && Model() == Appended(old(Model()), t)
    {
      line := line + t;
      RenderAppend(lineGlyphs, Emit(t));
      lineGlyphs := lineGlyphs + Emit(t);
    }

    /** `line += t` for characters of the template itself, standing on its line `at`. */
    method AppendRaw(t: string, ghost at: int)
      requires Valid()
      modifies this`line, this`lineGlyphs
      ensures Valid() && Model() == old(Model()).(line := old(lineGlyphs) + Copy(t, at))
    {
      line := line + t;
      RenderAppend(lineGlyphs, Copy(t, at));
      lineGlyphs := lineGlyphs + Copy(t, at);
    }

    method Read(t: string)
      requires Valid()
      modifies this`line, this`lineGlyphs
      ensures Valid() && Model() == ReadIn(old(Model()), t)
    {
      assert |line| == |lineGlyphs|;
      match state {
        case TextState =>
          if |line| == 0 {
            Append("print \"");
            assert old(lineGlyphs) + Emit("print \"") == Emit("print \"");
          }
          var tmp, n := Replace(t, "\\", "\\\\");
          tmp, n := Replace(tmp, "\"", "\\\"");
          tmp, n := Replace(tmp, "#", "\\#");
          ThreePassesIsEscape(t);
          Append(tmp);
        case _ =>
          AppendRaw(t, currentLine);
      }
    }

    method Change(s: State)
      requires Valid()
      modifies this`line, this`lineGlyphs, this`state, this`blockStartLine
      ensures Valid() && Model() == Changed(old(Model()), s)
    {
      assert |line| == |lineGlyphs|;
      match state {
        case VarState =>
          if |line| > 0 { Append("; "); }
          Append("print \"");
        case CodeState =>
          if |line| > 0 { Append("; "); }
          Append("print \"");
        case CommentState =>
        case TextState =>
          if |line| > 0 { Append("\"; "); }
      }
      state := s;
      blockStartLine := currentLine;
    }

    method EndLine()
      requires Valid()
      modifies this`text, this`textGlyphs, this`line, this`lineGlyphs, this`currentLine
      ensures Valid() && Model() == LineEnded(old(Model()))
    {
      assert |line| == |lineGlyphs|;
      currentLine := currentLine + 1;
      match state {
        case CodeState => AppendRaw("\n", currentLine - 1);
        case CommentState =>
        case TextState =>
          if |line| == 0 {
            Append("print \"");
            assert old(lineGlyphs) + Emit("print \"") == Emit("print \"");
          }
          Append("\\n\"\n");
        case VarState =>
      }
      text := text + line;
      RenderAppend(textGlyphs, lineGlyphs);
      textGlyphs := textGlyphs + lineGlyphs;
      line, lineGlyphs := "", [];
    }

    method Init()
      modifies this`text, this`textGlyphs, this`line, this`lineGlyphs
      ensures Valid() && Model() == Cleared(old(Model()))
    {
      line, lineGlyphs := "", [];
      text, textGlyphs := "", [];
    }

    method Finalize()
      requires Valid()
      modifies this`line, this`lineGlyphs, this`state, this`blockStartLine
      ensures Valid() && Model() == Changed(old(Model()), TextState)
    {
      Change(TextState);
    }

    /** The action of the rule the scanner chose. */
    method Act(token: Token)
      requires Valid()
      modifies this
      ensures Valid() && Model() == Acted(old(Model()), token)
    {
      match token.rule {
        case Restart =>
        case Swallow =>
        case OpenCode => Change(CodeState);
        case OpenExpr =>
          Change(VarState);
          Append("print((");
        case CloseCode =>
          if state == VarState { Append("))"); }
          Change(TextState);
        case OpenComment => Change(CommentState);
        case CloseComment => Change(TextState);
        case LeaveComment =>
        case Char => Read(token.lexeme);
        case LineEnd => EndLine();
      }
    }

    /** The scanner loop: one rule at a time, from INITIAL to the end of the input. */
    method LexScan(str: string)
      requires Valid()
      modifies this
      ensures Valid() && Model() == Ran(old(Model()), Scan(Initial, str))
    {
      var start, rest := Initial, str;
      while rest != ""
        invariant Valid()
        invariant Ran(Model(), Scan(start, rest)) == Ran(old(Model()), Scan(Initial, str))
        decreases |rest|, start == Initial
      {
        var token := NextToken(start, rest);
        RanScan(Model(), start, rest);
        var n := Consumed(start, rest);
        Act(token);
        start, rest := Begin(start, token.rule), rest[n..];
      }
    }

    /** `compile_text`. On a parser in text state, which is how the constructor and every `compile_text` leave it,
        the result is that of a new parser; read back, a document does what it says exactly when its comments do no
        damage. */
    method CompileText(str: string)
      modifies this
      ensures Valid() && Model() == Compiled(old(Model()), str)
      ensures state == TextState
      ensures old(state) == TextState ==> text == Render(Compiled(FRESH, str).text)
      ensures old(state) == TextState && TextMeaning(str).Some? && (str == "" || str[|str| - 1] == '\n') ==>
        (Behaviour(textGlyphs) == TextMeaning(str) <==> Harmless(str))
      ensures old(state) == TextState && HasNoMarker(str) ==>
        StringBehaviour(text) == Some(Prints(Normalised(Flushed(str))))
    {
      ghost var o := Model();
      Init();
      LexScan(str);
      Finalize();
      if o.state == TextState {
        ReuseIsSafe(o, str);
        if TextMeaning(str).Some? && (str == "" || str[|str| - 1] == '\n') {
          CommentsExact(o, str);
        }
        if HasNoMarker(str) {
          TextRoundTrip(o, str);
        }
      }
    }
  }
}
