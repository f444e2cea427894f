/** The tokeniser of src/rhtml.lex: start conditions, tokens and the token stream of an input. */
module RhtmlScanner {
  datatype Start = Initial | Text | Code | Comment

  datatype Rule = Restart | Swallow | OpenCode | OpenExpr | CloseCode | OpenComment | CloseComment
                | Char | LineEnd | LeaveComment

  /** `\r\n|\n` at the head of `s`. */
  function LineEndLength(s: string): (n: nat)
    ensures n <= |s| && n <= 2
  {
    if s != "" && s[0] == '\n' then 1
    else if |s| >= 2 && s[0] == '\r' && s[1] == '\n' then 2
    else 0
  }

  /** The scanner's decision at the head of a non-empty input: the rule and how many characters it matches. */
  function Next(start: Start, s: string): (r: (Rule, nat))
    requires s != ""
    ensures 0 < r.1 <= |s|
  {
    var eol := LineEndLength(s);
    match start
    case Initial => (Restart, if eol != 0 then eol else 1)
    case Text =>
      if eol != 0 then (LineEnd, eol)
      else if |s| >= 2 && s[0] == '\\' && (s[1] == 'n' || s[1] == 'r' || s[1] == 't') then (Swallow, 2)
      else if |s| >= 2 && (s[0] == '<' || s[0] == '{') && s[1] == '%' then
        if |s| >= 3 && s[2] == '=' then (OpenExpr, 3)
        else if |s| >= 4 && s[0] == '<' && s[2] == '-' && s[3] == '-' then (OpenComment, 4)
        else (OpenCode, 2)
      else (Char, 1)
    case Code =>
      if eol != 0 then (LineEnd, eol)
      else if |s| >= 2 && s[0] == '%' && (s[1] == '>' || s[1] == '}') then (CloseCode, 2)
      else (Char, 1)
    case Comment =>
      if eol != 0 then (LineEnd, eol)
      else if |s| >= 4 && s[0] == '-' && s[1] == '-' && s[2] == '%' && s[3] == '>' then (LeaveComment, 4)
      else if |s| >= 2 && s[0] == '%' && s[1] == '>' then (CloseComment, 2)
      else (Char, 1)
  }

  /** The start condition each action's BEGIN leaves. */
  function Begin(start: Start, rule: Rule): Start {
    match rule
    case Restart => Text
    case OpenCode => Code
    case OpenExpr => Code
    case CloseCode => Text
    case OpenComment => Comment
    case CloseComment => Text
    case LeaveComment => Text
    case _ => start
  }

  datatype Token = Token(rule: Rule, lexeme: string)

  /** The rules of INITIAL give their match back with `yyless(0)`. */
  function Consumed(start: Start, s: string): (n: nat)
    requires s != ""
    ensures n <= |s| && (n == 0 <==> start == Initial)
  {
    if start == Initial then 0 else Next(start, s).1
  }

  function NextToken(start: Start, s: string): Token
    requires s != ""
  {
    Token(Next(start, s).0, s[..Consumed(start, s)])
  }

  /** The whole token stream. */
  function Scan(start: Start, s: string): (tokens: seq<Token>)
    decreases |s|, start == Initial
  {
    if s == "" then []
    else
      [NextToken(start, s)] + Scan(Begin(start, Next(start, s).0), s[Consumed(start, s)..])
  }

  /** The start condition at the end of the input. */
  function FinalStart(start: Start, s: string): Start
    decreases |s|, start == Initial
  {
    if s == "" then start
    else FinalStart(Begin(start, Next(start, s).0), s[Consumed(start, s)..])
  }

  function Lexemes(tokens: seq<Token>): string {
    if tokens == [] then "" else tokens[0].lexeme + Lexemes(tokens[1..])
  }

  lemma CutAndJoin(s: string, n: nat)
    requires n <= |s|
    ensures s[..n] + s[n..] == s
  {
  }

  lemma LexemesCons(t: Token, tokens: seq<Token>)
    ensures Lexemes([t] + tokens) == t.lexeme + Lexemes(tokens)
  {
    assert ([t] + tokens)[1..] == tokens;
  }

  lemma ScanStep(start: Start, s: string, next: Start, rest: string)
    requires s != "" && next == Begin(start, Next(start, s).0) && rest == s[Consumed(start, s)..]
    ensures Scan(start, s) == [NextToken(start, s)] + Scan(next, rest)
    ensures FinalStart(start, s) == FinalStart(next, rest)
  {
  }

  lemma {:induction false} ScanConservesWithin(start: Start, s: string)
    requires start != Initial
    ensures Lexemes(Scan(start, s)) == s
    decreases |s|
  {
    if s == "" {
    } else {
      var next, rest := Begin(start, Next(start, s).0), s[Consumed(start, s)..];
      ScanConservesWithin(next, rest);
      ScanStep(start, s, next, rest);
      LexemesCons(NextToken(start, s), Scan(next, rest));
      CutAndJoin(s, Consumed(start, s));
    }
  }

  lemma ScanFromInitial(s: string)
    requires s != ""
    ensures Scan(Initial, s) == [Token(Restart, "")] + Scan(Text, s)
    ensures FinalStart(Initial, s) == FinalStart(Text, s)
  {
    assert s[0..] == s;
  }

  /** Scanning loses no input and invents none. */
  lemma ScanConservesInput(start: Start, s: string)
    ensures Lexemes(Scan(start, s)) == s
  {
    if start == Initial && s != "" {
      ScanFromInitial(s);
      LexemesCons(Token(Restart, ""), Scan(Text, s));
      ScanConservesWithin(Text, s);
    } else if s != "" {
      ScanConservesWithin(start, s);
    }
  }

  /** Every token takes at least one character, except the one that leaves INITIAL. */
  lemma {:induction false} ScanProgress(start: Start, s: string, i: nat)
    requires i < |Scan(start, s)|
    ensures Scan(start, s)[i].lexeme == "" <==> start == Initial && i == 0
    decreases |s|, start == Initial
  {
    if i == 0 {
    } else {
      var next, rest := Begin(start, Next(start, s).0), s[Consumed(start, s)..];
      ScanStep(start, s, next, rest);
      assert next != Initial;
      ScanProgress(next, rest, i - 1);
    }
  }

  /** No rule looks past a line feed, so what follows one cannot change how the text before it is cut. */
  lemma NextBeforeLineFeed(start: Start, a: string, b: string)
    requires a != "" && a[|a| - 1] == '\n'
    ensures Next(start, a + b) == Next(start, a)
    ensures Consumed(start, a + b) == Consumed(start, a)
    ensures Consumed(start, a) < |a| ==> a[Consumed(start, a)..][|a| - Consumed(start, a) - 1] == '\n'
  {
    assert forall i :: 0 <= i < |a| ==> (a + b)[i] == a[i];
  }

  lemma ScanNothing(start: Start)
    ensures Scan(start, "") == [] && FinalStart(start, "") == start
  {
  }

  lemma Glue<T>(whole: seq<T>, front: seq<T>, x: seq<T>, yz: seq<T>, y: seq<T>, z: seq<T>)
    requires whole == x + yz && yz == y + z && front == x + y
    ensures whole == front + z
  {
  }

  lemma TokenBeforeLineFeed(start: Start, a: string, b: string)
    requires a != "" && a[|a| - 1] == '\n'
    ensures NextToken(start, a + b) == NextToken(start, a)
    ensures Begin(start, Next(start, a + b).0) == Begin(start, Next(start, a).0)
    ensures var n := Consumed(start, a); (a + b)[Consumed(start, a + b)..] == a[n..] + b
    ensures var rest := a[Consumed(start, a)..]; rest == "" || rest[|rest| - 1] == '\n'
  {
    NextBeforeLineFeed(start, a, b);
    assert (a + b)[..Consumed(start, a)] == a[..Consumed(start, a)];
  }

  lemma {:induction false} ScanConcatWithin(start: Start, a: string, b: string)
    requires start != Initial
    requires a == "" || a[|a| - 1] == '\n'
    ensures Scan(start, a + b) == Scan(start, a) + Scan(FinalStart(start, a), b)
    ensures FinalStart(start, a + b) == FinalStart(FinalStart(start, a), b)
    decreases |a|
  {
    if a == "" {
      assert a + b == b;
      ScanNothing(start);
    } else {
      var rest := a[Consumed(start, a)..];
      var next := Begin(start, Next(start, a).0);
      TokenBeforeLineFeed(start, a, b);
      ScanConcatWithin(next, rest, b);
      ScanStep(start, a, next, rest);
      ScanStep(start, a + b, next, rest + b);
      Glue(Scan(start, a + b), Scan(start, a), [NextToken(start, a)],
           Scan(next, rest + b), Scan(next, rest), Scan(FinalStart(next, rest), b));
    }
  }

  /** Token streams concatenate at a line feed. */
  lemma ScanConcat(start: Start, a: string, b: string)
    requires a == "" || a[|a| - 1] == '\n'
    ensures Scan(start, a + b) == Scan(start, a) + Scan(FinalStart(start, a), b)
    ensures FinalStart(start, a + b) == FinalStart(FinalStart(start, a), b)
  {
    if start == Initial && a != "" {
      ScanFromInitial(a);
      ScanFromInitial(a + b);
      ScanConcatWithin(Text, a, b);
      Glue(Scan(start, a + b), Scan(start, a), [Token(Restart, "")],
           Scan(Text, a + b), Scan(Text, a), Scan(FinalStart(Text, a), b));
    } else if a == "" {
      assert a + b == b;
    } else {
      ScanConcatWithin(start, a, b);
    }
  }
}
