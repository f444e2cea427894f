/** The in-place find/replace loop of src/util.hpp and the escaping built from three runs of it. */
module Substitution {

  predicate OccursAt(s: string, find: string, at: nat) {
    at + |find| <= |s| && s[at..at + |find|] == find
  }

  /** `std::string::find`: the first occurrence at or after `from`, or -1. */
  function IndexOf(s: string, find: string, from: nat): (pos: int)
    requires from <= |s|
    ensures pos == -1 || (from <= pos && OccursAt(s, find, pos))
    ensures forall at: nat :: from <= at && (pos == -1 || at < pos) ==> !OccursAt(s, find, at)
    decreases |s| - from
  {
    if OccursAt(s, find, from) then from
    else if from == |s| then -1
    else IndexOf(s, find, from + 1)
  }

  /** Left-to-right substitution of non-overlapping occurrences; the text put in is never looked at again. */
  function Substitute(s: string, find: string, replacement: string): string
    requires find != ""
  {
    if s == "" then ""
    else if OccursAt(s, find, 0) then replacement + Substitute(s[|find|..], find, replacement)
    else [s[0]] + Substitute(s[1..], find, replacement)
  }

  /** How many occurrences that substitution replaces. */
  function Occurrences(s: string, find: string): nat
    requires find != ""
  {
    if s == "" then 0
    else if OccursAt(s, find, 0) then 1 + Occurrences(s[|find|..], find)
    else Occurrences(s[1..], find)
  }

  lemma OneMore(n: nat, d: int)
    ensures (1 + n) * d == d + n * d
  {
  }

  lemma {:induction false} SubstituteLength(s: string, find: string, replacement: string)
    requires find != ""
    ensures |Substitute(s, find, replacement)| == |s| + Occurrences(s, find) * (|replacement| - |find|)
  {
    if s == "" {
    } else if OccursAt(s, find, 0) {
      SubstituteLength(s[|find|..], find, replacement);
      OneMore(Occurrences(s[|find|..], find), |replacement| - |find|);
    } else {
      SubstituteLength(s[1..], find, replacement);
    }
  }

  lemma ShiftMisses(s: string, find: string, from: nat, to: nat)
    requires from <= to <= |s|
    requires forall at: nat :: from <= at < to ==> !OccursAt(s, find, at)
    ensures forall at: nat :: at < to - from ==> !OccursAt(s[from..], find, at)
  {
    forall at: nat | at < to - from
      ensures !OccursAt(s[from..], find, at)
    {
      assert !OccursAt(s, find, from + at);
      if from + at + |find| <= |s| {
        assert s[from..][at..at + |find|] == s[from + at..from + at + |find|];
      }
    }
  }

  lemma Associate(a: string, b: string, c: string)
    ensures a + (b + c) == a + b + c
  {
  }

  lemma SubstituteMiss(s: string, find: string, replacement: string)
    requires find != "" && s != "" && !OccursAt(s, find, 0)
    ensures Substitute(s, find, replacement) == [s[0]] + Substitute(s[1..], find, replacement)
    ensures Occurrences(s, find) == Occurrences(s[1..], find)
  {
  }

  /** A stretch without an occurrence is copied. */
  lemma {:induction false} SkipToMatch(s: string, find: string, replacement: string, k: nat)
    requires find != "" && k <= |s|
    requires forall at: nat :: at < k ==> !OccursAt(s, find, at)
    ensures Substitute(s, find, replacement) == s[..k] + Substitute(s[k..], find, replacement)
    ensures Occurrences(s, find) == Occurrences(s[k..], find)
  {
    hide Substitute, Occurrences, OccursAt;
    if k == 0 {
      assert s[0..] == s && s[..0] == "";
    } else {
      var tail := s[1..];
      SubstituteMiss(s, find, replacement);
      ShiftMisses(s, find, 1, k);
      SkipToMatch(tail, find, replacement, k - 1);
      assert tail[k - 1..] == s[k..];
      Associate([s[0]], tail[..k - 1], Substitute(s[k..], find, replacement));
      assert s[..k] == [s[0]] + tail[..k - 1];
    }
  }

  lemma SubstituteHere(s: string, find: string, replacement: string, pos: nat)
    requires find != "" && OccursAt(s, find, pos)
    ensures Substitute(s[pos..], find, replacement) == replacement + Substitute(s[pos + |find|..], find, replacement)
    ensures Occurrences(s[pos..], find) == 1 + Occurrences(s[pos + |find|..], find)
  {
    assert s[pos..][0..|find|] == s[pos..pos + |find|];
    assert s[pos..][|find|..] == s[pos + |find|..];
  }

  lemma Regroup(a: string, b: string, c: string, d: string)
    ensures a + (b + (c + d)) == a + b + c + d
  {
  }

  lemma CutAfter(a: string, b: string, c: string)
    ensures (a + b + c)[..|a| + |b|] == a + b
    ensures (a + b + c)[|a| + |b|..] == c
  {
  }

  /** One round of the loop, seen on the string. */
  lemma MatchStep(s: string, find: string, replacement: string, from: nat, pos: nat)
    requires find != "" && from <= |s| && pos == IndexOf(s, find, from)
    ensures var s' := s[..pos] + replacement + s[pos + |find|..];
            var from' := pos + |replacement|;
            s'[..from'] + Substitute(s'[from'..], find, replacement)
              == s[..from] + Substitute(s[from..], find, replacement) &&
            Occurrences(s[from..], find) == 1 + Occurrences(s'[from'..], find)
  {
    hide IndexOf, Substitute, Occurrences;
    var tail := s[pos + |find|..];
    ShiftMisses(s, find, from, pos);
    SkipToMatch(s[from..], find, replacement, pos - from);
    assert s[from..][pos - from..] == s[pos..];
    SubstituteHere(s, find, replacement, pos);
    Regroup(s[..from], s[from..][..pos - from], replacement, Substitute(tail, find, replacement));
    assert s[..from] + s[from..][..pos - from] == s[..pos];
    CutAfter(s[..pos], replacement, tail);
  }

  /** The loop of `replace`: the cursor jumps over the replacement, so it ends even when the replacement
      contains the string looked for. */
  method Replace(source: string, find: string, replacement: string) returns (result: string, num: nat)
    requires find != ""
    ensures result == Substitute(source, find, replacement)
    ensures num == Occurrences(source, find)
    ensures |result| == |source| + num * (|replacement| - |find|)
  {
    result, num := source, 0;
    var from := 0;
    var pos := IndexOf(result, find, from);
    assert result[0..] == source;
    while pos != -1
      invariant 0 <= from <= |result|
      invariant pos == IndexOf(result, find, from)
      invariant result[..from] + Substitute(result[from..], find, replacement) == Substitute(source, find, replacement)
      invariant num + Occurrences(result[from..], find) == Occurrences(source, find)
      decreases |result| - from
    {
      MatchStep(result, find, replacement, from, pos);
      num := num + 1;
      result := result[..pos] + replacement + result[pos + |find|..];
      from := pos + |replacement|;
      pos := IndexOf(result, find, from);
    }
    ShiftMisses(result, find, from, |result|);
    SkipToMatch(result[from..], find, replacement, |result| - from);
    SubstituteLength(source, find, replacement);
  }

  // ---- Escaping for a Ruby double-quoted literal ----

  function EscapeChar(c: char): string {
    if c == '\\' then "\\\\" else if c == '\"' then "\\\"" else if c == '#' then "\\#" else [c]
  }

  function Escape(t: string): string {
    if t == "" then "" else EscapeChar(t[0]) + Escape(t[1..])
  }

  /** The three replacements `read` makes, in its order: backslash, quote, hash. */
  function ThreePasses(t: string): string {
    Substitute(Substitute(Substitute(t, "\\", "\\\\"), "\"", "\\\""), "#", "\\#")
  }

  lemma SubstituteCons(s: string, x: char, replacement: string)
    requires s != ""
    ensures Substitute(s, [x], replacement) ==
      (if s[0] == x then replacement else [s[0]]) + Substitute(s[1..], [x], replacement)
  {
    assert s[0..1] == [s[0]];
  }

  lemma SubstituteNothing(find: string, replacement: string)
    requires find != ""
    ensures Substitute("", find, replacement) == ""
  {
  }

  lemma {:induction false} SubstituteCharDistributes(a: string, b: string, x: char, replacement: string)
    ensures Substitute(a + b, [x], replacement) == Substitute(a, [x], replacement) + Substitute(b, [x], replacement)
  {
    hide Substitute;
    if a == "" {
      assert a + b == b;
      SubstituteNothing([x], replacement);
    } else {
      var tail := a[1..];
      SubstituteCons(a, x, replacement);
      SubstituteCons(a + b, x, replacement);
      assert (a + b)[1..] == tail + b && (a + b)[0] == a[0];
      SubstituteCharDistributes(tail, b, x, replacement);
      var head := if a[0] == x then replacement else [a[0]];
      Associate(head, Substitute(tail, [x], replacement), Substitute(b, [x], replacement));
    }
  }

  lemma ThreePassesDistribute(a: string, b: string)
    ensures ThreePasses(a + b) == ThreePasses(a) + ThreePasses(b)
  {
    SubstituteCharDistributes(a, b, '\\', "\\\\");
    var a1, b1 := Substitute(a, "\\", "\\\\"), Substitute(b, "\\", "\\\\");
    SubstituteCharDistributes(a1, b1, '\"', "\\\"");
    var a2, b2 := Substitute(a1, "\"", "\\\""), Substitute(b1, "\"", "\\\"");
    SubstituteCharDistributes(a2, b2, '#', "\\#");
  }

  lemma SubstituteOneChar(c: char, x: char, replacement: string)
    ensures Substitute([c], [x], replacement) == if c == x then replacement else [c]
  {
    assert [c][1..] == "";
    assert [c][0..1] == [c];
    assert replacement + "" == replacement;
  }

  lemma ThreePassesOneChar(c: char)
    ensures ThreePasses([c]) == EscapeChar(c)
  {
    SubstituteOneChar(c, '\\', "\\\\");
    if c == '\\' {
      SubstituteCharDistributes("\\", "\\", '\"', "\\\"");
      SubstituteOneChar('\\', '\"', "\\\"");
      SubstituteCharDistributes("\\", "\\", '#', "\\#");
      SubstituteOneChar('\\', '#', "\\#");
    } else {
      SubstituteOneChar(c, '\"', "\\\"");
      if c == '\"' {
        assert "\\\"" == "\\" + "\"";
        SubstituteCharDistributes("\\", "\"", '#', "\\#");
        SubstituteOneChar('\\', '#', "\\#");
        SubstituteOneChar('\"', '#', "\\#");
      } else {
        SubstituteOneChar(c, '#', "\\#");
      }
    }
  }

  /** The three passes act character by character: no pass touches a backslash an earlier pass put in. */
  lemma {:induction false} ThreePassesIsEscape(t: string)
    ensures ThreePasses(t) == Escape(t)
  {
    if t == "" {
    } else {
      assert t == [t[0]] + t[1..];
      ThreePassesDistribute([t[0]], t[1..]);
      ThreePassesOneChar(t[0]);
      ThreePassesIsEscape(t[1..]);
    }
  }

  lemma {:induction false} EscapeDistributes(a: string, b: string)
    ensures Escape(a + b) == Escape(a) + Escape(b)
  {
    if a == "" {
      assert a + b == b;
    } else {
      assert (a + b)[1..] == a[1..] + b;
      EscapeDistributes(a[1..], b);
    }
  }
}
