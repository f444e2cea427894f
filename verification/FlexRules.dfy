/** The rule table of src/rhtml.lex in file order, and flex's rule for choosing among the rules that match. */
module FlexRules {
  import opened RhtmlScanner

  datatype Pattern = Exact(word: string) | Dot | Newline

  datatype Entry = Entry(start: Start, pattern: Pattern, rule: Rule)

  /** How many rules the file has. */
  const RULE_COUNT: nat := 20

  /** The rules in the order of the file. */
  function RuleAt(i: nat): Entry
    requires i < RULE_COUNT
  {
    match i
    case 0 => Entry(Initial, Newline, Restart)
    case 1 => Entry(Initial, Dot, Restart)
    case 2 => Entry(Text, Exact("\\n"), Swallow)
    case 3 => Entry(Text, Exact("\\r"), Swallow)
    case 4 => Entry(Text, Exact("\\t"), Swallow)
    case 5 => Entry(Text, Exact("<%"), OpenCode)
    case 6 => Entry(Text, Exact("{%"), OpenCode)
    case 7 => Entry(Text, Exact("<%="), OpenExpr)
    case 8 => Entry(Text, Exact("{%="), OpenExpr)
    case 9 => Entry(Code, Exact("%>"), CloseCode)
    case 10 => Entry(Code, Exact("%}"), CloseCode)
    case 11 => Entry(Text, Exact("<%--"), OpenComment)
    case 12 => Entry(Comment, Exact("%>"), CloseComment)
    case 13 => Entry(Text, Dot, Char)
    case 14 => Entry(Code, Dot, Char)
    case 15 => Entry(Comment, Dot, Char)
    case 16 => Entry(Text, Newline, LineEnd)
    case 17 => Entry(Code, Newline, LineEnd)
    case 18 => Entry(Comment, Newline, LineEnd)
    case _ => Entry(Comment, Exact("--%>"), LeaveComment)
  }

  predicate StartsWith(s: string, word: string) {
    |word| <= |s| && forall i :: 0 <= i < |word| ==> s[i] == word[i]
  }

  /** How much of `s` a pattern matches at its head; 0 when it does not match. */
  function MatchLength(p: Pattern, s: string): (n: nat)
    ensures n <= |s|
  {
    match p
    case Exact(word) => if StartsWith(s, word) then |word| else 0
    case Dot => if s != "" && s[0] != '\n' then 1 else 0
    case Newline => LineEndLength(s)
  }

  /** How much entry `i` matches at the head of `s`. */
  function EntryLength(i: nat, s: string): nat
    requires i < RULE_COUNT
  {
    MatchLength(RuleAt(i).pattern, s)
  }

  /** Flex's criterion: entry `i` matches, no active rule matches more, and no earlier one as much. */
  ghost predicate Chosen(start: Start, s: string, i: nat) {
    i < RULE_COUNT && RuleAt(i).start == start && EntryLength(i, s) > 0 &&
    forall j :: 0 <= j < RULE_COUNT && RuleAt(j).start == start ==>
      EntryLength(j, s) <= EntryLength(i, s) &&
      (j < i ==> EntryLength(j, s) < EntryLength(i, s))
  }

  /** The entries of the table that are active in text. */
  lemma TextRules()
    ensures forall j :: 0 <= j < RULE_COUNT && RuleAt(j).start == Text ==> j in {2, 3, 4, 5, 6, 7, 8, 11, 13, 16}
  {
  }

  /** What each entry of the table matches at the head of `s`, spelled out. */
  lemma TextEntries(s: string)
    requires s != ""
    ensures
      && EntryLength(2, s) == (if |s| >= 2 && s[0] == '\\' && s[1] == 'n' then 2 else 0)
      && EntryLength(3, s) == (if |s| >= 2 && s[0] == '\\' && s[1] == 'r' then 2 else 0)
      && EntryLength(4, s) == (if |s| >= 2 && s[0] == '\\' && s[1] == 't' then 2 else 0)
      && EntryLength(13, s) == (if s[0] != '\n' then 1 else 0)
      && EntryLength(16, s) == LineEndLength(s)
  {
  }

  lemma TextMarkerEntries(s: string)
    requires s != ""
    ensures
      && EntryLength(5, s) == (if |s| >= 2 && s[0] == '<' && s[1] == '%' then 2 else 0)
      && EntryLength(6, s) == (if |s| >= 2 && s[0] == '{' && s[1] == '%' then 2 else 0)
      && EntryLength(7, s) == (if |s| >= 3 && s[0] == '<' && s[1] == '%' && s[2] == '=' then 3 else 0)
      && EntryLength(8, s) == (if |s| >= 3 && s[0] == '{' && s[1] == '%' && s[2] == '=' then 3 else 0)
      && EntryLength(11, s) == (if |s| >= 4 && s[0] == '<' && s[1] == '%' && s[2] == '-' && s[3] == '-' then 4 else 0)
  {
  }

  lemma CodeEntries(s: string)
    requires s != ""
    ensures forall j :: 0 <= j < RULE_COUNT && RuleAt(j).start == Code ==> j in {9, 10, 14, 17}
    ensures
      && EntryLength(9, s) == (if |s| >= 2 && s[0] == '%' && s[1] == '>' then 2 else 0)
      && EntryLength(10, s) == (if |s| >= 2 && s[0] == '%' && s[1] == '}' then 2 else 0)
      && EntryLength(14, s) == (if s[0] != '\n' then 1 else 0)
      && EntryLength(17, s) == LineEndLength(s)
  {
  }

  lemma CommentEntries(s: string)
    requires s != ""
    ensures forall j :: 0 <= j < RULE_COUNT && RuleAt(j).start == Comment ==> j in {12, 15, 18, 19}
    ensures
      && EntryLength(12, s) == (if |s| >= 2 && s[0] == '%' && s[1] == '>' then 2 else 0)
      && EntryLength(15, s) == (if s[0] != '\n' then 1 else 0)
      && EntryLength(18, s) == LineEndLength(s)
      && EntryLength(19, s) == (if |s| >= 4 && s[0] == '-' && s[1] == '-' && s[2] == '%' && s[3] == '>' then 4 else 0)
  {
  }

  lemma TextChoice(s: string) returns (i: nat)
    requires s != ""
    ensures Chosen(Text, s, i)
    ensures Next(Text, s) == (RuleAt(i).rule, EntryLength(i, s))
  {
    TextEntries(s);
    TextMarkerEntries(s);
    var rule := Next(Text, s).0;
    i := if rule == Swallow then (if s[1] == 'n' then 2 else if s[1] == 'r' then 3 else 4)
         else if rule == OpenCode then (if s[0] == '<' then 5 else 6)
         else if rule == OpenExpr then (if s[0] == '<' then 7 else 8)
         else if rule == OpenComment then 11
         else if rule == Char then 13
         else 16;
    forall j | 0 <= j < RULE_COUNT && RuleAt(j).start == Text
      ensures EntryLength(j, s) <= EntryLength(i, s)
      ensures j < i ==> EntryLength(j, s) < EntryLength(i, s)
    {
      TextRules();
    }
  }

  lemma CodeChoice(s: string) returns (i: nat)
    requires s != ""
    ensures Chosen(Code, s, i)
    ensures Next(Code, s) == (RuleAt(i).rule, EntryLength(i, s))
  {
    CodeEntries(s);
    var rule := Next(Code, s).0;
    i := if rule == CloseCode then (if s[1] == '>' then 9 else 10) else if rule == Char then 14 else 17;
  }

  lemma CommentChoice(s: string) returns (i: nat)
    requires s != ""
    ensures Chosen(Comment, s, i)
    ensures Next(Comment, s) == (RuleAt(i).rule, EntryLength(i, s))
  {
    CommentEntries(s);
    var rule := Next(Comment, s).0;
    i := if rule == CloseComment then 12 else if rule == Char then 15 else if rule == LineEnd then 18 else 19;
  }

  /** `Next` is the longest match of the rule table, the earliest of the longest ones, on every input. */
  lemma NextIsLongestMatch(start: Start, s: string) returns (i: nat)
    requires s != ""
    ensures Chosen(start, s, i)
    ensures Next(start, s) == (RuleAt(i).rule, EntryLength(i, s))
  {
    match start {
      case Initial => i := if LineEndLength(s) != 0 then 0 else 1;
      case Text => i := TextChoice(s);
      case Code => i := CodeChoice(s);
      case Comment => i := CommentChoice(s);
    }
  }
}
