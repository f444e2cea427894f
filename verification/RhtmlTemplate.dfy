/** What an RHTML template means, read directly off the template: the printed text, the code blocks and the
    printed expressions, in document order. No parser state is involved. */
module RhtmlTemplate {
  import opened Options
  import opened RhtmlScanner

  datatype Event = Print(c: char) | Execute(code: string) | Show(expr: string)

  function Prepend(first: seq<Event>, rest: Option<seq<Event>>): Option<seq<Event>> {
    if rest.None? then None else Some(first + rest.value)
  }

  /** Blanks, line ends and semicolons: on their own they make no statement. */
  predicate Idle(c: char) {
    c == ' ' || c == ';' || 9 <= c as int <= 13
  }

  /** The code without what is idle at its start. */
  function Lead(code: string): string {
    if code == "" then ""
    else
      var front, c := Lead(code[..|code| - 1]), code[|code| - 1];
      if front == "" && Idle(c) then "" else front + [c]
  }

  /** The code without what is idle at its end. */
  function Trail(code: string): string {
    if code == "" || !Idle(code[|code| - 1]) then code else Trail(code[..|code| - 1])
  }

  /** A code block with nothing but idle characters does nothing; around other code they make no difference. */
  function Block(code: string): seq<Event> {
    if Lead(code) == "" then [] else [Execute(Trail(Lead(code)))]
  }

  lemma LeadSnoc(code: string, c: char)
    ensures Lead(code + [c]) == if Lead(code) == "" && Idle(c) then "" else Lead(code) + [c]
  {
    assert (code + [c])[..|code|] == code;
  }

  predicate OpensBlock(s: string) {
    |s| >= 2 && (s[0] == '<' || s[0] == '{') && s[1] == '%'
  }

  predicate OpensExpression(s: string) {
    OpensBlock(s) && |s| >= 3 && s[2] == '='
  }

  predicate OpensRemark(s: string) {
    OpensBlock(s) && |s| >= 4 && s[0] == '<' && s[2] == '-' && s[3] == '-'
  }

  predicate ClosesBlock(s: string) {
    |s| >= 2 && s[0] == '%' && (s[1] == '>' || s[1] == '}')
  }

  /** The pairs backslash-n, backslash-r and backslash-t, which the scanner drops from text. */
  predicate DroppedPair(s: string) {
    |s| >= 2 && s[0] == '\\' && (s[1] == 'n' || s[1] == 'r' || s[1] == 't')
  }

  /** Meaning of the rest of a document from inside text. An expression block that is never closed has none. */
  function TextMeaning(s: string): Option<seq<Event>>
    decreases |s|
  {
    var eol := LineEndLength(s);
    if s == "" then Some([])
    else if eol != 0 then Prepend([Print('\n')], TextMeaning(s[eol..]))
    else if DroppedPair(s) then TextMeaning(s[2..])
    else if OpensExpression(s) then ExpressionMeaning(s[3..], "")
    else if OpensRemark(s) then RemarkMeaning(s[4..])
    else if OpensBlock(s) then BlockMeaning(s[2..], "")
    else Prepend([Print(s[0])], TextMeaning(s[1..]))
  }

  /** Inside a code block whose code so far is `code`; line ends belong to the code. */
  function BlockMeaning(s: string, code: string): Option<seq<Event>>
    decreases |s|
  {
    var eol := LineEndLength(s);
    if s == "" then Some(Block(code))
    else if eol != 0 then BlockMeaning(s[eol..], code + "\n")
    else if ClosesBlock(s) then Prepend(Block(code), TextMeaning(s[2..]))
    else BlockMeaning(s[1..], code + [s[0]])
  }

  /** Inside an expression block; its lines are joined. */
  function ExpressionMeaning(s: string, expr: string): Option<seq<Event>>
    decreases |s|
  {
    var eol := LineEndLength(s);
    if s == "" then None
    else if eol != 0 then ExpressionMeaning(s[eol..], expr)
    else if ClosesBlock(s) then Prepend([Show(expr)], TextMeaning(s[2..]))
    else ExpressionMeaning(s[1..], expr + [s[0]])
  }

  /** A comment, up to its closing marker, does nothing. */
  function RemarkMeaning(s: string): Option<seq<Event>>
    decreases |s|
  {
    if s == "" then Some([])
    else if |s| >= 2 && s[0] == '%' && s[1] == '>' then TextMeaning(s[2..])
    else RemarkMeaning(s[1..])
  }
}
