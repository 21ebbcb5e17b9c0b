/**
 * The Python string operations the documentation tools rely on:
 * `str.isspace`, `str.strip`, `str.startswith`, `str.endswith` and
 * `str.splitlines`, over strings of Unicode code points.
 */
module PyText {
  import opened JavaText

  /** The characters `str.isspace` accepts (also what `\s` matches in a str pattern). */
  predicate IsSpace(c: char) {
    ('\t' <= c <= '\r') || ('\U{1C}' <= c <= ' ') || c == '\U{85}' || c == '\U{A0}' || c == '\U{1680}'
    || ('\U{2000}' <= c <= '\U{200A}') || c == '\U{2028}' || c == '\U{2029}' || c == '\U{202F}'
    || c == '\U{205F}' || c == '\U{3000}'
  }

  /** The characters that end a line for `str.splitlines` ("\r\n" counts as one break). */
  predicate IsLineBreak(c: char) {
    c == '\n' || c == '\r' || c == '\U{0B}' || c == '\U{0C}' || ('\U{1C}' <= c <= '\U{1E}')
    || c == '\U{85}' || c == '\U{2028}' || c == '\U{2029}'
  }

  predicate StartsWith(s: string, prefix: string) { prefix <= s }

  predicate EndsWith(s: string, suffix: string) {
    |suffix| <= |s| && s[|s| - |suffix|..] == suffix
  }

  function StripStart(s: string): string
    decreases |s|
  {
    if s != [] && IsSpace(s[0]) then StripStart(s[1..]) else s
  }

  function StripEnd(s: string): string
    decreases |s|
  {
    if s != [] && IsSpace(s[|s| - 1]) then StripEnd(s[..|s| - 1]) else s
  }

  /** `str.strip()`: the text without leading and trailing whitespace. */
  function Strip(s: string): string {
    StripEnd(StripStart(s))
  }

  predicate AllSpace(s: string) {
    forall i :: 0 <= i < |s| ==> IsSpace(s[i])
  }

  /** A string strips to "" exactly when it is all whitespace. */
  lemma {:induction false} StripEmpty(s: string)
    ensures Strip(s) == "" <==> AllSpace(s)
    decreases |s|
  {
    if s != [] && IsSpace(s[0]) {
      StripEmpty(s[1..]);
      assert AllSpace(s) <==> AllSpace(s[1..]) by {
        if AllSpace(s[1..]) {
          forall i | 0 <= i < |s| ensures IsSpace(s[i]) {
            if i > 0 { assert s[i] == s[1..][i - 1]; }
          }
        }
      }
    } else if s != [] {
      assert !AllSpace(s);
      var t := StripStart(s);
      assert t == s;
      assert StripEnd(t) != [] by {
        if StripEnd(t) == [] { StripEndEmpty(t); }
      }
    }
  }

  /** Stripping the end of a text that starts with a visible character leaves that character. */
  lemma {:induction false} StripEndEmpty(s: string)
    requires s != [] && !IsSpace(s[0])
    requires StripEnd(s) == []
    ensures false
    decreases |s|
  {
    if |s| > 1 && IsSpace(s[|s| - 1]) {
      StripEndEmpty(s[..|s| - 1]);
    }
  }

  /** The index of the first line break in `s`, or |s| when there is none. */
  function BreakAt(s: string): (k: nat)
    ensures k <= |s|
    ensures forall i :: 0 <= i < k ==> !IsLineBreak(s[i])
    ensures k < |s| ==> IsLineBreak(s[k])
    decreases |s|
  {
    if s == [] then 0 else if IsLineBreak(s[0]) then 0 else 1 + BreakAt(s[1..])
  }

  /** `str.splitlines()`: the lines of `s` without their breaks; a final break opens no empty line. */
  function SplitLines(s: string): (lines: seq<string>)
    decreases |s|
  {
    if s == [] then []
    else
      var k := BreakAt(s);
      if k == |s| then [s]
      else
        var next := if s[k] == '\r' && k + 1 < |s| && s[k + 1] == '\n' then k + 2 else k + 1;
        [s[..k]] + SplitLines(s[next..])
  }

  /** No line that `str.splitlines` produces holds a line break. */
  lemma {:induction false} SplitLinesHaveNoBreaks(s: string)
    ensures forall j, i :: 0 <= j < |SplitLines(s)| && 0 <= i < |SplitLines(s)[j]| ==> !IsLineBreak(SplitLines(s)[j][i])
    decreases |s|
  {
    if s != [] {
      var k := BreakAt(s);
      if k < |s| {
        var next := if s[k] == '\r' && k + 1 < |s| && s[k + 1] == '\n' then k + 2 else k + 1;
        SplitLinesHaveNoBreaks(s[next..]);
      }
    }
  }

  /** A text whose only line break is "\n". */
  predicate OnlyNewlines(s: string) {
    forall i :: 0 <= i < |s| && IsLineBreak(s[i]) ==> s[i] == '\n'
  }

  /** A suffix of a text broken only by "\n" is broken only by "\n". */
  lemma OnlyNewlinesSuffix(s: string, j: nat)
    requires OnlyNewlines(s) && j <= |s|
    ensures OnlyNewlines(s[j..])
  {
    forall i | 0 <= i < |s[j..]| && IsLineBreak(s[j..][i]) ensures s[j..][i] == '\n' {
      assert s[j..][i] == s[j + i];
    }
  }

  /** The text ends in "\n" exactly when its last character is one. */
  lemma EndsWithNewline(s: string)
    requires s != []
    ensures EndsWith(s, "\n") <==> s[|s| - 1] == '\n'
  {
    assert s[|s| - 1..] == [s[|s| - 1]];
  }

  /** The lines of a text whose first break is a "\n" at k: the text before it, then the lines after it. */
  lemma SplitLinesAtNewline(s: string, k: nat)
    requires k == BreakAt(s) && k < |s| && s[k] == '\n'
    ensures SplitLines(s) == [s[..k]] + SplitLines(s[k + 1..])
  {
  }

  /** For a text broken only by "\n", joining its lines with "\n" and restoring the final break gives it back. */
  lemma {:induction false} SplitLinesJoin(s: string)
    requires OnlyNewlines(s)
    ensures Join(SplitLines(s), "\n") + (if EndsWith(s, "\n") then "\n" else "") == s
    decreases |s|
  {
    if s == [] {
      return;
    }
    var k := BreakAt(s);
    if k == |s| {
      assert SplitLines(s) == [s];
      assert !EndsWith(s, "\n") by {
        EndsWithNewline(s);
        assert !IsLineBreak(s[|s| - 1]);
      }
      return;
    }
    var rest := s[k + 1..];
    var head := s[..k];
    var tail := SplitLines(rest);
    assert SplitLines(s) == [head] + tail && s == head + "\n" + rest by {
      assert s[k] == '\n';
      SplitLinesAtNewline(s, k);
    }
    assert Join(tail, "\n") + (if EndsWith(rest, "\n") then "\n" else "") == rest by {
      OnlyNewlinesSuffix(s, k + 1);
      SplitLinesJoin(rest);
    }
    assert rest == [] <==> tail == [] by {
      if rest != [] { SplitLinesNonEmpty(rest); }
    }
    JoinLinesCons(head, rest, tail);
  }

  /** One more line in front: joined with "\n", it is the line, the break, and the rest of the text. */
  lemma JoinLinesCons(head: string, rest: string, tail: seq<string>)
    requires rest == [] <==> tail == []
    requires Join(tail, "\n") + (if EndsWith(rest, "\n") then "\n" else "") == rest
    ensures var s := head + "\n" + rest;
            Join([head] + tail, "\n") + (if EndsWith(s, "\n") then "\n" else "") == s
  {
    var s := head + "\n" + rest;
    EndsWithNewline(s);
    if rest == [] {
      assert [head] + tail == [head];
    } else {
      JoinCons(head, tail, "\n");
      EndsWithNewline(rest);
      assert s[|s| - 1] == rest[|rest| - 1];
    }
  }

  /** A non-empty text has at least one line. */
  lemma SplitLinesNonEmpty(s: string)
    requires s != []
    ensures SplitLines(s) != []
  {
  }

  /** The last line of a non-empty text broken only by "\n" and not ending in one is not empty. */
  lemma {:induction false} LastLineNotEmpty(s: string)
    requires s != [] && OnlyNewlines(s) && !EndsWith(s, "\n")
    ensures SplitLines(s) != [] && SplitLines(s)[|SplitLines(s)| - 1] != []
    decreases |s|
  {
    EndsWithNewline(s);
    var k := BreakAt(s);
    if k < |s| {
      var rest := s[k + 1..];
      assert s[k] == '\n';
      assert k < |s| - 1;
      OnlyNewlinesSuffix(s, k + 1);
      EndsWithNewline(rest);
      assert s[|s| - 1] == rest[|rest| - 1];
      LastLineNotEmpty(rest);
    }
  }
}
