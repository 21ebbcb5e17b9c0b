/**
 * The documentation numbering tool: every line inside a fenced code block
 * of a Markdown file is prefixed with its 1-based number, right-justified
 * to the width of the block's largest number, and ": ".
 */
module MdNumbering {
  import opened JavaText
  import opened Decimal
  import opened PyText

  /** `\S*` followed by `\s*` up to the end: a language tag, then only whitespace. */
  predicate LangThenSpace(s: string)
    decreases |s|
  {
    s == [] || (IsSpace(s[0]) && AllSpace(s[1..])) || (!IsSpace(s[0]) && LangThenSpace(s[1..]))
  }

  /** A line the fence pattern matches: "```", an optional language tag, optional trailing whitespace. */
  predicate IsFence(line: string) {
    |line| >= 3 && line[0] == '`' && line[1] == '`' && line[2] == '`' && LangThenSpace(line[3..])
  }

  /** A word without whitespace followed by only whitespace is a language tag and its trailing space. */
  lemma {:induction false} WordThenSpace(word: string, space: string)
    requires forall i :: 0 <= i < |word| ==> !IsSpace(word[i])
    requires AllSpace(space)
    ensures LangThenSpace(word + space)
    decreases |word|
  {
    if word == [] {
      assert word + space == space;
      if space != [] {
        assert AllSpace(space[1..]) by {
          forall i | 0 <= i < |space[1..]| ensures IsSpace(space[1..][i]) {
            assert space[1..][i] == space[i + 1];
          }
        }
      }
    } else {
      assert (word + space)[0] == word[0] && (word + space)[1..] == word[1..] + space;
      WordThenSpace(word[1..], space);
    }
  }

  /** Three backquotes, alone, with a language, or with trailing spaces, open or close a block. */
  lemma FenceExamplesAccepted()
    ensures IsFence("```") && IsFence("```python") && IsFence("```python  ")
  {
    var word := "python";
    assert forall i :: 0 <= i < |word| ==> !IsSpace(word[i]);
    assert "```python"[3..] == word + "";
    WordThenSpace(word, "");
    assert "```python  "[3..] == word + "  ";
    WordThenSpace(word, "  ");
  }

  /** A space before the language, or only two backquotes, is no fence. */
  lemma FenceExamplesRefused()
    ensures !IsFence("``` python") && !IsFence("``")
  {
    assert "``` python"[3..] == " python";
    assert !AllSpace("python") by { assert !IsSpace("python"[0]); }
    assert " python"[1..] == "python";
  }

  /** `str.rjust(width)`: spaces in front up to the width; a longer text is left as it is. */
  function RJust(s: string, width: nat): (r: string)
    ensures |r| == if |s| >= width then |s| else width
  {
    if |s| >= width then s else seq(width - |s|, _ => ' ') + s
  }

  /** `len(str(max(1, count)))`. */
  function Width(count: nat): nat {
    |NatToString(if count < 1 then 1 else count)|
  }

  /** Line k of a block whose numbers are `width` wide. */
  function NumberedLine(k: nat, width: nat, line: string): string {
    RJust(NatToString(k), width) + ": " + line
  }

  /** The lines of a closed block, numbered from 1. */
  function Numbered(buf: seq<string>): (r: seq<string>)
    ensures |r| == |buf|
  {
    seq(|buf|, i requires 0 <= i < |buf| => NumberedLine(i + 1, Width(|buf|), buf[i]))
  }

  /** Every number of a block takes exactly the block's width. */
  lemma NumbersAligned(count: nat, k: nat)
    requires 1 <= k <= count
    ensures |RJust(NatToString(k), Width(count))| == Width(count)
  {
    NatToStringLengthMonotone(k, count);
  }

  /** The loop's variables: out_lines, in_code, code_buf. */
  datatype Numberer = Numberer(out: seq<string>, inCode: bool, buf: seq<string>)

  const Start: Numberer := Numberer([], false, [])

  function Step(st: Numberer, line: string): Numberer {
    if IsFence(line) then
      if !st.inCode then Numberer(st.out + [line], true, [])
      else Numberer(st.out + Numbered(st.buf) + [line], false, [])
    else if st.inCode then st.(buf := st.buf + [line])
    else st.(out := st.out + [line])
  }

  function Run(ls: seq<string>, st: Numberer): Numberer
    decreases |ls|
  {
    if ls == [] then st else Run(ls[1..], Step(st, ls[0]))
  }

  /** The lines written back for the file's lines. */
  function Out(ls: seq<string>): seq<string> {
    Run(ls, Start).out
  }

  /** The file's new text: the lines joined by "\n", with a final "\n" when the old text had one. */
  function NewText(text: string): string {
    Join(Out(SplitLines(text)), "\n") + (if EndsWith(text, "\n") then "\n" else "")
  }

  lemma {:induction false} RunAppend(a: seq<string>, b: seq<string>, st: Numberer)
    ensures Run(a + b, st) == Run(b, Run(a, st))
    decreases |a|
  {
    if a == [] {
      assert a + b == b;
    } else {
      var next := Step(st, a[0]);
      assert a + b != [] && (a + b)[0] == a[0] && (a + b)[1..] == a[1..] + b;
      assert Run(a + b, st) == Run(a[1..] + b, next);
      assert Run(a, st) == Run(a[1..], next);
      RunAppend(a[1..], b, next);
    }
  }

  lemma RunSnoc(a: seq<string>, x: string, st: Numberer)
    ensures Run(a + [x], st) == Step(Run(a, st), x)
  {
    RunAppend(a, [x], st);
  }

  /** The numbered lines of one block, built one line at a time. */
  method NumberBlock(buf: seq<string>) returns (numbered: seq<string>)
    ensures numbered == Numbered(buf)
  {
    var width := |NatToString(if |buf| < 1 then 1 else |buf|)|;
    numbered := [];
    for i := 0 to |buf|
      invariant |numbered| == i
      invariant forall j :: 0 <= j < i ==> numbered[j] == NumberedLine(j + 1, width, buf[j])
    {
      numbered := numbered + [RJust(NatToString(i + 1), width) + ": " + buf[i]];
    }
  }

  /**
   * The transform of one file: the new text, and whether the file is
   * rewritten, which happens exactly when the text changed.
   */
  method NumberFile(text: string) returns (newText: string, rewrite: bool)
    ensures newText == NewText(text)
    ensures rewrite <==> newText != text
  {
    var ls := SplitLines(text);
    var outLines: seq<string> := [];
    var inCode := false;
    var codeBuf: seq<string> := [];
    for i := 0 to |ls|
      invariant Run(ls[..i], Start) == Numberer(outLines, inCode, codeBuf)
    {
      var line := ls[i];
      if IsFence(line) {
        if !inCode {
          inCode := true;
          outLines := outLines + [line];
          codeBuf := [];
        } else {
          inCode := false;
          var numbered := NumberBlock(codeBuf);
          outLines := outLines + numbered + [line];
          codeBuf := [];
        }
      } else if inCode {
        codeBuf := codeBuf + [line];
      } else {
        outLines := outLines + [line];
      }
      assert ls[..i + 1] == ls[..i] + [ls[i]];
      RunSnoc(ls[..i], ls[i], Start);
    }
    assert ls[..|ls|] == ls;
    newText := Join(outLines, "\n") + (if EndsWith(text, "\n") then "\n" else "");
    rewrite := newText != text;
  }

  // ---- Lines outside and inside blocks ----

  predicate NoFence(ls: seq<string>) {
    forall i :: 0 <= i < |ls| ==> !IsFence(ls[i])
  }

  lemma NoFenceTail(ls: seq<string>)
    requires NoFence(ls) && ls != []
    ensures NoFence(ls[1..]) && !IsFence(ls[0])
  {
    forall i | 0 <= i < |ls[1..]| ensures !IsFence(ls[1..][i]) {
      assert ls[1..][i] == ls[i + 1];
    }
  }

  /** Outside a block every line is written back unchanged, in order. */
  lemma {:induction false} OutsideLines(ls: seq<string>, st: Numberer)
    requires NoFence(ls) && !st.inCode
    ensures Run(ls, st) == st.(out := st.out + ls)
    decreases |ls|
  {
    if ls == [] {
      assert st.out + ls == st.out;
    } else {
      NoFenceTail(ls);
      var next := st.(out := st.out + [ls[0]]);
      assert Run(ls, st) == Run(ls[1..], next);
      OutsideLines(ls[1..], next);
      assert next.out + ls[1..] == st.out + ls;
    }
  }

  /** Inside a block every line is held back for numbering. */
  lemma {:induction false} InsideLines(ls: seq<string>, st: Numberer)
    requires NoFence(ls) && st.inCode
    ensures Run(ls, st) == st.(buf := st.buf + ls)
    decreases |ls|
  {
    if ls == [] {
      assert st.buf + ls == st.buf;
    } else {
      NoFenceTail(ls);
      var next := st.(buf := st.buf + [ls[0]]);
      assert Run(ls, st) == Run(ls[1..], next);
      InsideLines(ls[1..], next);
      assert next.buf + ls[1..] == st.buf + ls;
    }
  }

  /** A file without fences is written back line for line. */
  lemma NoFenceUnchanged(ls: seq<string>)
    requires NoFence(ls)
    ensures Out(ls) == ls
  {
    OutsideLines(ls, Start);
  }

  /** A text broken only by "\n" and without fences gives back its own text, so the file is not rewritten. */
  lemma NoFenceText(text: string)
    requires OnlyNewlines(text) && NoFence(SplitLines(text))
    ensures NewText(text) == text
  {
    NoFenceUnchanged(SplitLines(text));
    SplitLinesJoin(text);
  }

  // ---- The block structure ----

  /** The first fence at or after `from`, or |ls|. */
  function FirstFence(ls: seq<string>, from: nat): (k: nat)
    requires from <= |ls|
    ensures from <= k <= |ls|
    ensures k < |ls| ==> IsFence(ls[k])
    ensures NoFence(ls[from..k])
    decreases |ls| - from
  {
    if from == |ls| then from
    else if IsFence(ls[from]) then from
    else
      var k := FirstFence(ls, from + 1);
      assert forall i :: 0 <= i < k - from ==> ls[from..k][i] == (if i == 0 then ls[from] else ls[from + 1..k][i - 1]);
      k
  }

  /**
   * The transform block by block: lines up to and including an opening
   * fence stay; a block closed by a later fence is numbered and followed by
   * that fence; a block never closed is dropped with everything after it.
   */
  function Blocks(ls: seq<string>): seq<string>
    decreases |ls|
  {
    var k := FirstFence(ls, 0);
    if k == |ls| then ls
    else
      var j := FirstFence(ls, k + 1);
      if j == |ls| then ls[..k + 1]
      else ls[..k + 1] + Numbered(ls[k + 1..j]) + [ls[j]] + Blocks(ls[j + 1..])
  }

  /** The lines up to the first fence go out unchanged, followed by the fence, which opens a block. */
  lemma RunToFence(ls: seq<string>, st: Numberer, k: nat)
    requires !st.inCode && k == FirstFence(ls, 0) && k < |ls|
    ensures Run(ls, st) == Run(ls[k + 1..], Numberer(st.out + ls[..k + 1], true, []))
  {
    var s2 := Numberer(st.out + ls[..k + 1], true, []);
    assert ls[0..k] == ls[..k];
    assert Run(ls[..k + 1], st) == s2 by {
      OutsideLines(ls[..k], st);
      RunSnoc(ls[..k], ls[k], st);
      assert ls[..k + 1] == ls[..k] + [ls[k]];
      assert st.out + ls[..k] + [ls[k]] == st.out + ls[..k + 1];
    }
    assert ls == ls[..k + 1] + ls[k + 1..];
    RunAppend(ls[..k + 1], ls[k + 1..], st);
  }

  /** Inside an open block, the lines up to the next fence are numbered and the fence closes the block. */
  lemma RunBlock(rest: seq<string>, s2: Numberer, j: nat)
    requires s2.inCode && s2.buf == [] && j == FirstFence(rest, 0) && j < |rest|
    ensures Run(rest, s2) == Run(rest[j + 1..], Numberer(s2.out + Numbered(rest[..j]) + [rest[j]], false, []))
  {
    var code := rest[..j];
    assert rest[0..j] == code;
    var s4 := Numberer(s2.out + Numbered(code) + [rest[j]], false, []);
    assert Run(rest[..j + 1], s2) == s4 by {
      InsideLines(code, s2);
      assert rest[..j + 1] == code + [rest[j]];
      RunSnoc(code, rest[j], s2);
      assert [] + code == code;
    }
    assert rest == rest[..j + 1] + rest[j + 1..];
    RunAppend(rest[..j + 1], rest[j + 1..], s2);
  }

  /** Where the next fence lies in the lines after k: counted from k + 1. */
  lemma FirstFenceShift(ls: seq<string>, k: nat)
    requires k < |ls|
    ensures FirstFence(ls, k + 1) == k + 1 + FirstFence(ls[k + 1..], 0)
    decreases |ls| - k
  {
    FirstFenceFrom(ls, k + 1, 0);
  }

  lemma {:induction false} FirstFenceFrom(ls: seq<string>, base: nat, from: nat)
    requires base + from <= |ls|
    ensures FirstFence(ls, base + from) == base + FirstFence(ls[base..], from)
    decreases |ls| - base - from
  {
    if base + from < |ls| {
      assert ls[base..][from] == ls[base + from];
      if !IsFence(ls[base + from]) {
        FirstFenceFrom(ls, base, from + 1);
      }
    }
  }

  /** The line-by-line loop does the block-by-block transform. */
  lemma {:induction false} RunIsBlocks(ls: seq<string>, st: Numberer)
    requires !st.inCode
    ensures Run(ls, st).out == st.out + Blocks(ls)
    decreases |ls|, 1
  {
    var k := FirstFence(ls, 0);
    if k == |ls| {
      assert ls[0..k] == ls;
      OutsideLines(ls, st);
    } else if FirstFence(ls, k + 1) == |ls| {
      RunIsBlocksUnclosed(ls, st, k);
    } else {
      RunIsBlocksClosed(ls, st, k, FirstFence(ls, k + 1));
    }
  }

  /** The first block is never closed: the loop keeps the lines up to its fence and holds back the rest. */
  lemma RunIsBlocksUnclosed(ls: seq<string>, st: Numberer, k: nat)
    requires !st.inCode && k == FirstFence(ls, 0) && k < |ls| && FirstFence(ls, k + 1) == |ls|
    ensures Run(ls, st).out == st.out + Blocks(ls)
  {
    var rest := ls[k + 1..];
    var s2 := Numberer(st.out + ls[..k + 1], true, []);
    RunToFence(ls, st, k);
    FirstFenceShift(ls, k);
    assert rest[0..|rest|] == rest;
    InsideLines(rest, s2);
  }

  /** The loop over a file whose first block is closed: it copies up to the fence, numbers the block and closes it. */
  lemma RunClosedBlock(ls: seq<string>, st: Numberer, k: nat, j: nat)
    requires !st.inCode && k == FirstFence(ls, 0) && k < |ls| && j == FirstFence(ls, k + 1) && j < |ls|
    ensures Run(ls, st) == Run(ls[j + 1..], Numberer(st.out + ls[..k + 1] + Numbered(ls[k + 1..j]) + [ls[j]], false, []))
  {
    var rest := ls[k + 1..];
    var s2 := Numberer(st.out + ls[..k + 1], true, []);
    var jr := j - (k + 1);
    RunToFence(ls, st, k);
    FirstFenceShift(ls, k);
    assert jr == FirstFence(rest, 0);
    RunBlock(rest, s2, jr);
    assert rest[..jr] == ls[k + 1..j] && rest[jr] == ls[j] && rest[jr + 1..] == ls[j + 1..];
  }

  /** The first block is closed: the loop numbers it and carries on after its closing fence. */
  lemma {:induction false} RunIsBlocksClosed(ls: seq<string>, st: Numberer, k: nat, j: nat)
    requires !st.inCode && k == FirstFence(ls, 0) && k < |ls| && j == FirstFence(ls, k + 1) && j < |ls|
    ensures Run(ls, st).out == st.out + Blocks(ls)
    decreases |ls|, 0
  {
    var a, n, f, c := ls[..k + 1], Numbered(ls[k + 1..j]), [ls[j]], Blocks(ls[j + 1..]);
    var s4 := Numberer(st.out + a + n + f, false, []);
    assert Run(ls, st).out == s4.out + c by {
      RunClosedBlock(ls, st, k, j);
      RunIsBlocks(ls[j + 1..], s4);
    }
    assert Blocks(ls) == a + n + f + c by {
      BlocksClosed(ls, k, j);
    }
    SeqAssoc(st.out, a, n, f, c);
  }

  lemma SeqAssoc(o: seq<string>, a: seq<string>, n: seq<string>, f: seq<string>, c: seq<string>)
    ensures o + a + n + f + c == o + (a + n + f + c)
  {
  }

  /** Blocks on a file whose first block is closed. */
  lemma BlocksClosed(ls: seq<string>, k: nat, j: nat)
    requires k == FirstFence(ls, 0) && k < |ls| && j == FirstFence(ls, k + 1) && j < |ls|
    ensures Blocks(ls) == ls[..k + 1] + Numbered(ls[k + 1..j]) + [ls[j]] + Blocks(ls[j + 1..])
  {
  }

  /** Out and Blocks agree on every file. */
  lemma OutIsBlocks(ls: seq<string>)
    ensures Out(ls) == Blocks(ls)
  {
    RunIsBlocks(ls, Start);
  }

  // ---- Counting lines ----

  function FenceCount(ls: seq<string>): nat
    decreases |ls|
  {
    if ls == [] then 0 else (if IsFence(ls[0]) then 1 else 0) + FenceCount(ls[1..])
  }

  /** Lines held back in an open block. */
  function Held(st: Numberer): nat {
    if st.inCode then |st.buf| else 0
  }

  /** Every line is written back or held back, and a block is open after an odd number of fences. */
  lemma {:induction false} RunCounts(ls: seq<string>, st: Numberer)
    ensures |Run(ls, st).out| + Held(Run(ls, st)) == |st.out| + Held(st) + |ls|
    ensures Run(ls, st).inCode == (st.inCode != (FenceCount(ls) % 2 == 1))
    decreases |ls|
  {
    if ls != [] {
      var next := Step(st, ls[0]);
      assert Run(ls, st) == Run(ls[1..], next);
      assert |next.out| + Held(next) == |st.out| + Held(st) + 1;
      RunCounts(ls[1..], next);
    }
  }

  /** When every fence is closed, the file keeps its number of lines. */
  lemma SameLineCount(ls: seq<string>)
    requires FenceCount(ls) % 2 == 0
    ensures |Out(ls)| == |ls|
  {
    RunCounts(ls, Start);
  }

  /** Lines after a fence that is never closed are dropped; the fence itself is kept. */
  lemma UnterminatedDropped(a: seq<string>, fence: string, b: seq<string>)
    requires FenceCount(a) % 2 == 0 && IsFence(fence) && NoFence(b)
    ensures Out(a + [fence] + b) == Out(a) + [fence]
  {
    RunCounts(a, Start);
    var sa := Run(a, Start);
    var s2 := Numberer(sa.out + [fence], true, []);
    RunSnoc(a, fence, Start);
    RunAppend(a + [fence], b, Start);
    InsideLines(b, s2);
  }

  /** One closed block of one line: "```py", "a", "```" becomes "```py", "1: a", "```". */
  lemma OneLineBlock()
    ensures Out(["```py", "a", "```"]) == ["```py", "1: a", "```"]
  {
    var open, line, close := "```py", "a", "```";
    assert IsFence(open) by { assert open[3..] == "py" && "py"[1..] == "y" && "y"[1..] == ""; }
    assert IsFence(close) by { assert close[3..] == ""; }
    assert !IsFence(line);
    assert Numbered([line]) == ["1: a"] by {
      assert NatToString(1) == "1";
      assert Width(1) == 1;
      assert NumberedLine(1, 1, line) == "1: a";
    }
    var s1 := Numberer([open], true, []);
    var s2 := Numberer([open], true, [line]);
    var s3 := Numberer([open] + Numbered([line]) + [close], false, []);
    assert Run([open, line, close], Start) == s3 by {
      assert Run([], s3) == s3;
      assert Run([close], s2) == s3 by { assert |[close][1..]| == 0; }
      assert Run([line, close], s1) == s3 by { assert [line, close][1..] == [close]; }
      assert [open, line, close][1..] == [line, close];
    }
  }

  // ---- The final newline ----

  predicate NoNewline(line: string) {
    forall i :: 0 <= i < |line| ==> line[i] != '\n'
  }

  function Last(ls: seq<string>): string
    requires ls != []
  {
    ls[|ls| - 1]
  }

  /** While a block is open, the last line written is its opening fence. */
  predicate OpenFenceLast(st: Numberer) {
    st.inCode ==> st.out != [] && IsFence(Last(st.out)) && NoNewline(Last(st.out))
  }

  /**
   * When the last input line is neither empty nor holds a "\n", the last
   * line written is not empty and holds no "\n" either.
   */
  lemma {:induction false} LastLineWritten(ls: seq<string>, st: Numberer)
    requires OpenFenceLast(st)
    requires forall i :: 0 <= i < |ls| ==> NoNewline(ls[i])
    ensures OpenFenceLast(Run(ls, st))
    ensures ls != [] && Last(ls) != [] ==>
              Run(ls, st).out != [] && Last(Run(ls, st).out) != [] && NoNewline(Last(Run(ls, st).out))
    decreases |ls|
  {
    if ls != [] {
      var init := ls[..|ls| - 1];
      var x := Last(ls);
      assert ls == init + [x];
      LastLineWritten(init, st);
      RunSnoc(init, x, st);
      var before := Run(init, st);
      var after := Step(before, x);
      assert NoNewline(x);
      if IsFence(x) || !before.inCode {
        assert Last(after.out) == x;
      }
    }
  }

  /** For a text broken only by "\n", the new text ends in "\n" exactly when the old one did. */
  lemma FinalNewlineKept(text: string)
    requires OnlyNewlines(text)
    ensures EndsWith(NewText(text), "\n") <==> EndsWith(text, "\n")
  {
    if !EndsWith(text, "\n") && text != [] {
      var ls := SplitLines(text);
      LastLineNotEmpty(text);
      SplitLinesHaveNoBreaks(text);
      assert forall i :: 0 <= i < |ls| ==> NoNewline(ls[i]) by {
        forall i | 0 <= i < |ls| ensures NoNewline(ls[i]) {
          forall c | 0 <= c < |ls[i]| ensures ls[i][c] != '\n' {
            assert !IsLineBreak(ls[i][c]);
          }
        }
      }
      LastLineWritten(ls, Start);
      var out := Out(ls);
      JoinEndsWithLast(out);
      EndsWithNewline(Join(out, "\n"));
    }
  }

  /** The joined text ends with the last line's last character. */
  lemma JoinEndsWithLast(parts: seq<string>)
    requires parts != [] && Last(parts) != []
    ensures Join(parts, "\n") != [] && Join(parts, "\n")[|Join(parts, "\n")| - 1] == Last(parts)[|Last(parts)| - 1]
  {
    if |parts| > 1 {
      var init := parts[..|parts| - 1];
      assert parts == init + [Last(parts)];
      JoinSnoc(init, Last(parts), "\n");
    }
  }
}
