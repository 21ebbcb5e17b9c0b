/**
 * `parse_markdown` of the slide generators: the Markdown text is cut into
 * sections at "## " headers; each section keeps its non-blank lines and
 * turns every fenced code block into one entry.
 * Both generator scripts carry the same function.
 */
module MdSlides {
  import opened Wrappers
  import opened JavaText
  import opened PyText

  /** One slide's worth: the header's title and the entries under it. */
  datatype Section = Section(title: string, items: seq<string>)

  /** The loop's variables: sections, cur_title, cur_lines, in_code, code_buf. */
  datatype Parser = Parser(sections: seq<Section>, title: Option<string>, lines: seq<string>, inCode: bool, codeBuf: seq<string>)

  const Start: Parser := Parser([], None, [], false, [])

  /** Python truthiness of cur_title: set and not the empty string. */
  predicate Truthy(t: Option<string>) { t.Some? && t.value != "" }

  /** `line.startswith('## ')`. */
  predicate IsHeader(line: string) {
    |line| >= 3 && line[0] == '#' && line[1] == '#' && line[2] == ' '
  }

  /** `line.startswith('```')`. */
  predicate IsFenceLine(line: string) {
    |line| >= 3 && line[0] == '`' && line[1] == '`' && line[2] == '`'
  }

  /** The title a header line opens. */
  function HeaderTitle(line: string): string
    requires IsHeader(line)
  {
    Strip(line[3..])
  }

  /** A code block as one entry: its lines joined by "\n" inside a pair of fences. */
  function CodeEntry(buf: seq<string>): string {
    "```" + Join(buf, "\n") + "```"
  }

  /** The section's entries with a pending code buffer appended, when it holds anything. */
  function Flush(lines: seq<string>, buf: seq<string>): seq<string> {
    if buf == [] then lines else lines + [CodeEntry(buf)]
  }

  /**
   * One pass of the loop over a line. `resetOnHeader` chooses whether a
   * header empties code_buf when no section is open (the script does not).
   */
  function Step(st: Parser, line: string, resetOnHeader: bool): Parser {
    if IsHeader(line) then
      var sections := if Truthy(st.title) then st.sections + [Section(st.title.value, Flush(st.lines, st.codeBuf))] else st.sections;
      var buf := if Truthy(st.title) || resetOnHeader then [] else st.codeBuf;
      Parser(sections, Some(HeaderTitle(line)), [], false, buf)
    else if IsFenceLine(line) then
      if st.inCode then st.(inCode := false, lines := st.lines + [CodeEntry(st.codeBuf)], codeBuf := [])
      else st.(inCode := true, codeBuf := [])
    else if st.inCode then st.(codeBuf := st.codeBuf + [line])
    else if Strip(line) == "" then st
    else st.(lines := st.lines + [line])
  }

  /** The loop over all lines. */
  function Run(ls: seq<string>, st: Parser, resetOnHeader: bool): Parser
    decreases |ls|
  {
    if ls == [] then st else Run(ls[1..], Step(st, ls[0], resetOnHeader), resetOnHeader)
  }

  /** After the loop: the open section, with its pending code, is the last one. */
  function Finish(st: Parser): seq<Section> {
    if Truthy(st.title) then st.sections + [Section(st.title.value, Flush(st.lines, st.codeBuf))] else st.sections
  }

  /** parse_markdown on the text's lines, as the scripts write it. */
  function Sections(ls: seq<string>): seq<Section> {
    Finish(Run(ls, Start, false))
  }

  /** parse_markdown with code_buf emptied at every header. */
  function SectionsFixed(ls: seq<string>): seq<Section> {
    Finish(Run(ls, Start, true))
  }

  lemma {:induction false} RunAppend(a: seq<string>, b: seq<string>, st: Parser, r: bool)
    ensures Run(a + b, st, r) == Run(b, Run(a, st, r), r)
    decreases |a|
  {
    if a == [] {
      assert a + b == b;
    } else {
      var next := Step(st, a[0], r);
      assert a + b != [] && (a + b)[0] == a[0] && (a + b)[1..] == a[1..] + b;
      assert Run(a + b, st, r) == Run(a[1..] + b, next, r);
      assert Run(a, st, r) == Run(a[1..], next, r);
      RunAppend(a[1..], b, next, r);
    }
  }

  lemma RunSnoc(a: seq<string>, x: string, st: Parser, r: bool)
    ensures Run(a + [x], st, r) == Step(Run(a, st, r), x, r)
  {
    RunAppend(a, [x], st, r);
  }

  /** parse_markdown: the loop over md_text.splitlines(), then the last section. */
  method ParseMarkdown(mdText: string) returns (sections: seq<Section>)
    ensures sections == Sections(SplitLines(mdText))
  {
    var ls := SplitLines(mdText);
    sections := [];
    var curTitle: Option<string> := None;
    var curLines: seq<string> := [];
    var inCode := false;
    var codeBuf: seq<string> := [];
    for i := 0 to |ls|
      invariant Run(ls[..i], Start, false) == Parser(sections, curTitle, curLines, inCode, codeBuf)
    {
      var line := ls[i];
      if IsHeader(line) {
        if Truthy(curTitle) {
          if codeBuf != [] {
            curLines := curLines + [CodeEntry(codeBuf)];
            codeBuf := [];
          }
          sections := sections + [Section(curTitle.value, curLines)];
        }
        curTitle := Some(Strip(line[3..]));
        curLines := [];
        inCode := false;
      } else if IsFenceLine(line) {
        if inCode {
          inCode := false;
          curLines := curLines + [CodeEntry(codeBuf)];
          codeBuf := [];
        } else {
          inCode := true;
          codeBuf := [];
        }
      } else {
        if inCode {
          codeBuf := codeBuf + [line];
        } else if Strip(line) != "" {
          curLines := curLines + [line];
        }
      }
      assert ls[..i + 1] == ls[..i] + [ls[i]];
      RunSnoc(ls[..i], ls[i], Start, false);
    }
    assert ls[..|ls|] == ls;
    if Truthy(curTitle) {
      if codeBuf != [] {
        curLines := curLines + [CodeEntry(codeBuf)];
      }
      sections := sections + [Section(curTitle.value, curLines)];
    }
  }

  // ---- Titles ----

  function Titles(secs: seq<Section>): (ts: seq<string>)
    ensures |ts| == |secs|
    ensures forall i :: 0 <= i < |secs| ==> ts[i] == secs[i].title
  {
    if secs == [] then [] else Titles(secs[..|secs| - 1]) + [secs[|secs| - 1].title]
  }

  /** The titles of the header lines, in order, leaving out those that strip to nothing. */
  function HeaderTitles(ls: seq<string>): seq<string>
    decreases |ls|
  {
    if ls == [] then []
    else (if IsHeader(ls[0]) && HeaderTitle(ls[0]) != "" then [HeaderTitle(ls[0])] else []) + HeaderTitles(ls[1..])
  }

  /** The titles of the closed sections and of the open one. */
  function Pending(st: Parser): seq<string> {
    Titles(st.sections) + (if Truthy(st.title) then [st.title.value] else [])
  }

  lemma {:induction false} RunPending(ls: seq<string>, st: Parser, r: bool)
    ensures Pending(Run(ls, st, r)) == Pending(st) + HeaderTitles(ls)
    decreases |ls|
  {
    if ls != [] {
      var next := Step(st, ls[0], r);
      assert Run(ls, st, r) == Run(ls[1..], next, r);
      assert HeaderTitles(ls) == HeaderTitles([ls[0]]) + HeaderTitles(ls[1..]) by {
        assert [ls[0]][1..] == [];
      }
      assert Pending(next) == Pending(st) + HeaderTitles([ls[0]]) by {
        if IsHeader(ls[0]) && Truthy(st.title) {
          var closed := Section(st.title.value, Flush(st.lines, st.codeBuf));
          assert Titles(st.sections + [closed]) == Titles(st.sections) + [closed.title] by {
            assert (st.sections + [closed])[..|st.sections|] == st.sections;
          }
        }
      }
      RunPending(ls[1..], next, r);
    }
  }

  /**
   * One section per "## " header whose title strips to something, in the
   * order of the headers (a header inside an open code block counts too).
   */
  lemma SectionTitles(ls: seq<string>)
    ensures Titles(Sections(ls)) == HeaderTitles(ls)
    ensures Titles(SectionsFixed(ls)) == HeaderTitles(ls)
  {
    RunPending(ls, Start, false);
    RunPending(ls, Start, true);
    FinishTitles(Run(ls, Start, false));
    FinishTitles(Run(ls, Start, true));
  }

  lemma FinishTitles(st: Parser)
    ensures Titles(Finish(st)) == Pending(st)
  {
    if Truthy(st.title) {
      var last := Section(st.title.value, Flush(st.lines, st.codeBuf));
      assert (st.sections + [last])[..|st.sections|] == st.sections;
    }
  }

  // ---- Section bodies ----

  /** Lines that neither open a section nor open or close a code block. */
  predicate Plain(ls: seq<string>) {
    forall i :: 0 <= i < |ls| ==> !IsHeader(ls[i]) && !IsFenceLine(ls[i])
  }

  /** The lines that do not strip to nothing, in order. */
  function NonBlank(ls: seq<string>): seq<string>
    decreases |ls|
  {
    if ls == [] then [] else (if Strip(ls[0]) == "" then [] else [ls[0]]) + NonBlank(ls[1..])
  }

  /** What a plain line outside code adds to the section: itself unless it is blank. */
  function Kept(line: string): seq<string> {
    if Strip(line) == "" then [] else [line]
  }

  lemma PlainTail(ls: seq<string>)
    requires Plain(ls) && ls != []
    ensures Plain(ls[1..]) && !IsHeader(ls[0]) && !IsFenceLine(ls[0])
  {
    forall i | 0 <= i < |ls[1..]| ensures !IsHeader(ls[1..][i]) && !IsFenceLine(ls[1..][i]) {
      assert ls[1..][i] == ls[i + 1];
    }
  }

  lemma PlainStep(ls: seq<string>, st: Parser, r: bool)
    requires Plain(ls) && ls != [] && !st.inCode
    ensures Run(ls, st, r) == Run(ls[1..], st.(lines := st.lines + Kept(ls[0])), r)
    ensures NonBlank(ls) == Kept(ls[0]) + NonBlank(ls[1..])
  {
    PlainTail(ls);
    assert Step(st, ls[0], r) == st.(lines := st.lines + Kept(ls[0])) by {
      if Kept(ls[0]) == [] { assert st.lines + [] == st.lines; }
    }
  }

  /** Outside a code block, plain lines are kept when they are not blank and dropped when they are. */
  lemma {:induction false} PlainLinesKept(ls: seq<string>, st: Parser, r: bool)
    requires Plain(ls) && !st.inCode
    ensures Run(ls, st, r) == st.(lines := st.lines + NonBlank(ls))
    decreases |ls|
  {
    if ls == [] {
      assert st.lines + NonBlank(ls) == st.lines;
      assert Run(ls, st, r) == st;
    } else {
      var next := st.(lines := st.lines + Kept(ls[0]));
      PlainStep(ls, st, r);
      PlainTail(ls);
      PlainLinesKept(ls[1..], next, r);
      assert next.lines + NonBlank(ls[1..]) == st.lines + NonBlank(ls);
    }
  }

  /** Inside a code block every plain line is kept verbatim, blank ones included. */
  lemma {:induction false} CodeLinesKept(ls: seq<string>, st: Parser, r: bool)
    requires Plain(ls) && st.inCode
    ensures Run(ls, st, r) == st.(codeBuf := st.codeBuf + ls)
    decreases |ls|
  {
    if ls != [] {
      assert Plain(ls[1..]) by {
        forall i | 0 <= i < |ls[1..]| ensures !IsHeader(ls[1..][i]) && !IsFenceLine(ls[1..][i]) {
          assert ls[1..][i] == ls[i + 1];
        }
      }
      assert !IsHeader(ls[0]) && !IsFenceLine(ls[0]);
      assert st.codeBuf + [ls[0]] + ls[1..] == st.codeBuf + ls;
      var next := Step(st, ls[0], r);
      assert Run(ls, st, r) == Run(ls[1..], next, r);
      CodeLinesKept(ls[1..], next, r);
    }
  }

  /** A fence line cannot also be a header. */
  lemma FenceIsNoHeader(line: string)
    requires IsFenceLine(line)
    ensures !IsHeader(line)
  {
    assert line[0] == '`';
  }

  /** A closed code block becomes one entry of the section, its lines joined by "\n" between fences. */
  lemma ClosedBlock(open: string, code: seq<string>, close: string, st: Parser, r: bool)
    requires IsFenceLine(open) && IsFenceLine(close) && Plain(code) && !st.inCode
    ensures Run([open] + code + [close], st, r) == st.(lines := st.lines + [CodeEntry(code)], codeBuf := [])
  {
    FenceIsNoHeader(open);
    FenceIsNoHeader(close);
    var afterOpen := Step(st, open, r);
    assert afterOpen == st.(inCode := true, codeBuf := []);
    RunAppend([open] + code, [close], st, r);
    RunAppend([open], code, st, r);
    CodeLinesKept(code, afterOpen, r);
    assert [] + code == code;
  }

  /** A code block still open at the end of the input is flushed into the last section when it holds a line. */
  lemma UnclosedAtEnd(open: string, code: seq<string>, st: Parser, r: bool)
    requires IsFenceLine(open) && Plain(code) && !st.inCode && Truthy(st.title)
    ensures Finish(Run([open] + code, st, r)) == st.sections + [Section(st.title.value, Flush(st.lines, code))]
  {
    FenceIsNoHeader(open);
    var afterOpen := Step(st, open, r);
    RunAppend([open], code, st, r);
    CodeLinesKept(code, afterOpen, r);
    assert [] + code == code;
  }

  /** A code block still open at the next header is flushed into the section that header closes. */
  lemma UnclosedAtHeader(open: string, code: seq<string>, header: string, st: Parser, r: bool)
    requires IsFenceLine(open) && Plain(code) && IsHeader(header) && !st.inCode && Truthy(st.title)
    ensures Run([open] + code + [header], st, r).sections == st.sections + [Section(st.title.value, Flush(st.lines, code))]
    ensures !Run([open] + code + [header], st, r).inCode
  {
    FenceIsNoHeader(open);
    var afterOpen := Step(st, open, r);
    RunAppend([open] + code, [header], st, r);
    RunAppend([open], code, st, r);
    CodeLinesKept(code, afterOpen, r);
    assert [] + code == code;
  }

  // ---- Text before the first header ----

  predicate NoHeader(ls: seq<string>) {
    forall i :: 0 <= i < |ls| ==> !IsHeader(ls[i])
  }

  /** Before any header there is no section and no title. */
  lemma {:induction false} PreambleState(pre: seq<string>, st: Parser, r: bool)
    requires NoHeader(pre)
    ensures Run(pre, st, r).sections == st.sections && Run(pre, st, r).title == st.title
    decreases |pre|
  {
    if pre != [] {
      assert NoHeader(pre[1..]) by {
        forall i | 0 <= i < |pre[1..]| ensures !IsHeader(pre[1..][i]) { assert pre[1..][i] == pre[i + 1]; }
      }
      assert !IsHeader(pre[0]);
      var next := Step(st, pre[0], r);
      assert Run(pre, st, r) == Run(pre[1..], next, r);
      PreambleState(pre[1..], next, r);
    }
  }

  /** Two states with no open section and the same sections end alike when headers empty code_buf. */
  lemma {:induction false} FixedForgets(ls: seq<string>, s1: Parser, s2: Parser)
    requires s1.sections == s2.sections && s1.title == s2.title && !Truthy(s1.title)
    ensures Finish(Run(ls, s1, true)) == Finish(Run(ls, s2, true))
    decreases |ls|
  {
    if ls != [] {
      var n1 := Step(s1, ls[0], true);
      var n2 := Step(s2, ls[0], true);
      assert Run(ls, s1, true) == Run(ls[1..], n1, true);
      assert Run(ls, s2, true) == Run(ls[1..], n2, true);
      if IsHeader(ls[0]) {
        assert n1 == n2;
      } else {
        FixedForgets(ls[1..], n1, n2);
      }
    }
  }

  /** With code_buf emptied at every header, nothing before the first header reaches any section. */
  lemma PreambleDiscardedFixed(pre: seq<string>, ls: seq<string>)
    requires NoHeader(pre)
    ensures SectionsFixed(pre + ls) == SectionsFixed(ls)
  {
    RunAppend(pre, ls, Start, true);
    PreambleState(pre, Start, true);
    FixedForgets(ls, Run(pre, Start, true), Start);
  }

  /**
   * As the scripts are written, a code block left open before the first
   * header is not emptied by that header and ends up in its section.
   */
  lemma PreambleLeaks()
    ensures Sections(["```", "leak", "## A"]) == [Section("A", ["```leak```"])]
    ensures Sections(["## A"]) == [Section("A", [])]
  {
    var fence: string, code: string, header: string := "```", "leak", "## A";
    assert HeaderTitle(header) == "A" by {
      assert header[3..] == "A";
      assert !IsSpace('A');
    }
    var s1 := Parser([], None, [], true, []);
    var s2 := Parser([], None, [], true, [code]);
    var s3 := Parser([], Some("A"), [], false, [code]);
    assert Step(Start, fence, false) == s1 by { assert IsFenceLine(fence) && fence[0] == '`'; }
    assert Step(s1, code, false) == s2 by { assert code[0] == 'l'; }
    assert Step(s2, header, false) == s3;
    assert Run([fence, code, header], Start, false) == s3 by {
      assert Run([], s3, false) == s3;
      assert Run([header], s2, false) == s3 by { assert |[header][1..]| == 0; }
      assert Run([code, header], s1, false) == s3 by { assert [code, header][1..] == [header]; }
      assert [fence, code, header][1..] == [code, header];
    }
    assert CodeEntry([code]) == "```leak```" by { assert Join([code], "\n") == code; }
    assert Finish(s3) == [Section("A", [CodeEntry([code])])] by {
      assert Truthy(s3.title) && Flush([], [code]) == [CodeEntry([code])];
    }
    assert Run([header], Start, false) == Parser([], Some("A"), [], false, []) by {
      assert |[header][1..]| == 0;
    }
  }
}
