/** Documents that do not end with a line feed: what their last part costs. */
module RhtmlTails {
  import opened Options
  import opened RhtmlScanner
  import opened RhtmlOutput
  import opened RhtmlTemplate
  import opened RubyReader
  import opened RhtmlMeaning
  import opened RhtmlTheorems
  import opened RhtmlComments

  /** Text without a line end that means nothing: dropped pairs, comments, and code blocks with nothing in them that
      is not idle. */
  predicate Silent(s: string)
    decreases |s|
  {
    s == "" ||
    if DroppedPair(s) then Silent(s[2..])
    else if OpensExpression(s) then false
    else if OpensRemark(s) then SilentRemark(s[4..])
    else OpensBlock(s) && SilentBlock(s[2..])
  }

  predicate SilentBlock(s: string)
    decreases |s|
  {
    s == "" || if ClosesBlock(s) then Silent(s[2..]) else Idle(s[0]) && SilentBlock(s[1..])
  }

  predicate SilentRemark(s: string)
    decreases |s|
  {
    s == "" || if |s| >= 2 && s[0] == '%' && s[1] == '>' then Silent(s[2..]) else SilentRemark(s[1..])
  }

  lemma PrependsNothing(front: seq<Event>, rest: Option<seq<Event>>)
    ensures Prepend(front, rest) == Some(front) <==> rest == Some([])
  {
    if rest.Some? {
      assert |front + rest.value| == |front| + |rest.value|;
      assert front + [] == front;
    }
  }

  lemma BlockAndMore(code: string, rest: Option<seq<Event>>)
    ensures Prepend(Block(code), rest) == Some(Block(code)) <==> rest == Some([])
    ensures rest.Some? ==> CodeSize(Block(code) + rest.value) >= Weight(code)
  {
    PrependsNothing(Block(code), rest);
    if rest.Some? {
      BlockSize(code);
      CodeSizeConcat(Block(code), rest.value);
    }
  }

  /** An idle character at the end of a block does not change it, any other one does. */
  lemma BlockChar(code: string, c: char)
    ensures Idle(c) ==> Block(code + [c]) == Block(code)
    ensures Weight(code + [c]) == Weight(code) + CharWeight(c)
  {
    LeadSnoc(code, c);
    WeightSnoc(code, c);
    assert (Lead(code) + [c])[..|Lead(code)|] == Lead(code);
  }

  lemma {:induction false} ExpressionIsLoud(s: string, expr: string)
    requires '\n' !in s
    ensures ExpressionMeaning(s, expr) != Some([])
    decreases |s|
  {
    if s == "" || ClosesBlock(s) {
    } else {
      ExpressionIsLoud(s[1..], expr + [s[0]]);
    }
  }

  lemma {:induction false} SilentExact(s: string)
    requires '\n' !in s
    ensures TextMeaning(s) == Some([]) <==> Silent(s)
    decreases |s|
  {
    if s == "" {
    } else {
      if DroppedPair(s) {
        SilentExact(s[2..]);
      } else if OpensExpression(s) {
        ExpressionIsLoud(s[3..], "");
      } else if OpensRemark(s) {
        RemarkSilentExact(s[4..]);
      } else if OpensBlock(s) {
        BlockSilentExact(s[2..], "");
        assert Block("") == [];
      }
    }
  }

  /** What follows an open code block adds nothing to it exactly when it is silent as the rest of a block. */
  lemma {:induction false} BlockSilentExact(s: string, code: string)
    requires '\n' !in s
    ensures BlockMeaning(s, code) == Some(Block(code)) <==> SilentBlock(s)
    ensures BlockMeaning(s, code).Some? ==> CodeSize(BlockMeaning(s, code).value) >= Weight(code)
    decreases |s|
  {
    if s == "" {
      BlockSize(code);
    } else if ClosesBlock(s) {
      SilentExact(s[2..]);
      BlockAndMore(code, TextMeaning(s[2..]));
    } else {
      BlockChar(code, s[0]);
      BlockSilentExact(s[1..], code + [s[0]]);
      BlockSize(code);
    }
  }

  lemma {:induction false} RemarkSilentExact(s: string)
    requires '\n' !in s
    ensures RemarkMeaning(s) == Some([]) <==> SilentRemark(s)
    decreases |s|
  {
    if s == "" {
    } else {
      if |s| >= 2 && s[0] == '%' && s[1] == '>' {
        SilentExact(s[2..]);
      } else {
        RemarkSilentExact(s[1..]);
      }
    }
  }

  /** The last part of a document, which is not compiled, makes no difference: it is silent where it stands, or the
      document has no meaning with it as it has none without it, because an expression block stays open. */
  ghost predicate CostsNothing(p: Output, end: Start, tail: string) {
    match p.state
    case TextState => Silent(tail)
    case CommentState => if end == Comment then SilentRemark(tail) else Silent(tail)
    case CodeState => SilentBlock(tail)
    case VarState => Ran(p, Scan(end, tail)).state == VarState
  }

  lemma CostsNothingExact(p: Output, end: Start, tail: string, open: string)
    requires Aligned(end, p.state) && (end != Code ==> open == "") && '\n' !in tail
    ensures RestMeaning(p, end, tail, open) == RestMeaning(p, end, "", open) <==> CostsNothing(p, end, tail)
  {
    match p.state {
      case TextState => SilentExact(tail);
      case CommentState =>
        SilentExact(tail);
        RemarkSilentExact(tail);
      case CodeState => BlockSilentExact(tail, open);
      case VarState => MeaninglessExact(p, end, tail, open);
    }
  }

  lemma PrependCancels(done: seq<Event>, a: Option<seq<Event>>, b: Option<seq<Event>>)
    ensures Prepend(done, a) == Prepend(done, b) <==> a == b
  {
    if a.Some? && b.Some? && done + a.value == done + b.value {
      assert a.value == (done + a.value)[|done|..] && b.value == (done + b.value)[|done|..];
    }
  }

  /** For every document: if the comments up to its last line feed do no damage, it compiles to its whole meaning
      exactly when what comes after that line feed makes no difference there. */
  lemma TailCosts(o: Output, doc: string)
    requires o.state == TextState && Harmless(Flushed(doc))
    ensures var front := Flushed(doc);
            Behaviour(Compiled(o, doc).text) == TextMeaning(doc) <==>
              CostsNothing(Ran(FRESH, Scan(Text, front)), FinalStart(Text, front), doc[|front|..])
  {
    hide TextMeaning, Harmless, Compiled, Behaviour, FinalStart, CostsNothing, RestMeaning;
    var front := Flushed(doc);
    var tail := doc[|front|..];
    var p, end := Ran(FRESH, Scan(Text, front)), FinalStart(Text, front);
    assert doc == front + tail;
    TextIsFlushedPart(o, doc);
    CompilePreservesMeaning(o, front);
    var done, open := RestSplit(FRESH, Text, front, tail, "");
    RestInText(FRESH, front);
    RestInText(FRESH, doc);
    CostsNothingExact(p, end, tail, open);
    PrependCancels(done, RestMeaning(p, end, tail, open), RestMeaning(p, end, "", open));
  }
}
