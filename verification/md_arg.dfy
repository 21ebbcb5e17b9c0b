/**
 * `main` of the command-line slide generator: the argument check, the
 * title slide, the sections of the markdown file and the output path
 * `Path(arg).with_suffix('.pptx')`. Paths are POSIX path strings.
 */
module MdArg {
  import opened Wrappers
  import opened PyText
  import opened TextWrap
  import MdSlides

  /** What the run did; every outcome but `Wrote` ends with exit status 1. */
  datatype Outcome =
    | Usage                            // not exactly one argument
    | NotFound(path: string)           // the argument names no existing file
    | Failed                           // reading the file or deriving the output path raised
    | Wrote(deck: Deck, out: string)   // the deck is written to `out`

  /** The title slide and the content slides of a deck. */
  datatype Deck = Deck(title: string, subtitle: string, sections: seq<MdSlides.Section>)

  const Pptx: string := ".pptx"

  function ExitCode(o: Outcome): nat {
    if o.Wrote? then 0 else 1
  }

  /** Index of the last '/' of the path, or -1. */
  function LastSlash(p: string): int {
    RFind(p, '/', |p|)
  }

  /** `Path.parent` written with its trailing '/': everything up to and including the last '/'. */
  function Parent(p: string): string {
    p[..LastSlash(p) + 1]
  }

  /** `Path.name`: everything after the last '/'. */
  function Name(p: string): string {
    p[LastSlash(p) + 1..]
  }

  /** Index of the last '.' of a name, or -1. */
  function LastDot(name: string): int {
    RFind(name, '.', |name|)
  }

  /** A name has a suffix when its last dot is neither its first nor its last character. */
  predicate HasSuffix(name: string) {
    0 < LastDot(name) < |name| - 1
  }

  /** `PurePath.suffix`. */
  function Suffix(name: string): string {
    if HasSuffix(name) then name[LastDot(name)..] else ""
  }

  /** `PurePath.stem`. */
  function Stem(name: string): string {
    if HasSuffix(name) then name[..LastDot(name)] else name
  }

  /** `Path.with_suffix('.pptx')`: None where pathlib raises because the name is empty. */
  function WithPptx(p: string): Option<string> {
    if Name(p) == "" then None else Some(Parent(p) + Stem(Name(p)) + Pptx)
  }

  /** `str.replace('_', ' ')`. */
  function Underscores(s: string): (r: string)
    ensures |r| == |s|
    ensures forall i :: 0 <= i < |s| ==> r[i] == (if s[i] == '_' then ' ' else s[i])
  {
    seq(|s|, i requires 0 <= i < |s| => if s[i] == '_' then ' ' else s[i])
  }

  /**
   * The decisions of `main`. `argv` is the whole `sys.argv`, script name first;
   * `pathExists` (`Path.exists`) and `read` stand for the file system (`read` is None where
   * `read_text` raises).
   */
  function Run(argv: seq<string>, pathExists: string -> bool, read: string -> Option<string>): (o: Outcome)
    ensures |argv| != 2 ==> o == Usage
    ensures |argv| == 2 && !pathExists(argv[1]) ==> o == NotFound(argv[1])
    ensures ExitCode(o) == 0 <==>
      |argv| == 2 && pathExists(argv[1]) && read(argv[1]).Some? && Name(argv[1]) != ""
    ensures o.Wrote? ==> EndsWith(o.out, Pptx) && Parent(o.out) == Parent(argv[1])
    ensures o.Wrote? ==> o.deck.sections == MdSlides.Sections(SplitLines(read(argv[1]).value))
  {
    if |argv| != 2 then Usage
    else
      var path := argv[1];
      if !pathExists(path) then NotFound(path)
      else match read(path)
        case None => Failed
        case Some(text) =>
          var deck := Deck(Underscores(Stem(Name(path))), "From " + Name(path),
                           MdSlides.Sections(SplitLines(text)));
          match WithPptx(path)
            case None => Failed
            case Some(out) =>
              OutPathShape(path);
              Wrote(deck, out)
  }

  /** The last occurrence of c in a + b: in b if b holds one, else in a. */
  lemma {:induction false} RFindAppend(a: string, b: string, c: char)
    ensures RFind(a + b, c, |a + b|) ==
      (if RFind(b, c, |b|) >= 0 then |a| + RFind(b, c, |b|) else RFind(a, c, |a|))
    decreases |b|
  {
    if b == [] {
      assert a + b == a;
    } else {
      var b' := b[..|b| - 1];
      assert (a + b)[..|a + b| - 1] == a + b';
      assert (a + b)[|a + b| - 1] == b[|b| - 1];
      RFindPrefix(a + b, c, |a + b| - 1);
      RFindPrefix(b, c, |b| - 1);
      RFindAppend(a, b', c);
    }
  }

  /** Looking below `end` only reads the first `end` characters. */
  lemma {:induction false} RFindPrefix(text: string, c: char, end: nat)
    requires end <= |text|
    ensures RFind(text, c, end) == RFind(text[..end], c, end)
    decreases end
  {
    if end > 0 && text[end - 1] != c {
      RFindPrefix(text, c, end - 1);
      RFindPrefix(text[..end], c, end - 1);
      assert text[..end][..end - 1] == text[..end - 1];
    }
  }

  /** A text without c has no last c. */
  lemma {:induction false} RFindAbsent(text: string, c: char, end: nat)
    requires end <= |text|
    requires forall i :: 0 <= i < end ==> text[i] != c
    ensures RFind(text, c, end) == -1
    decreases end
  {
    if end > 0 {
      RFindAbsent(text, c, end - 1);
    }
  }

  /** A name holds no '/'. */
  lemma NameHasNoSlash(p: string)
    ensures forall i :: 0 <= i < |Name(p)| ==> Name(p)[i] != '/'
  {
    forall i | 0 <= i < |Name(p)| ensures Name(p)[i] != '/' {
      RFindLast(p, '/', |p|, LastSlash(p) + 1 + i);
    }
  }

  /** A path is its parent followed by its name. */
  lemma ParentName(p: string)
    ensures Parent(p) + Name(p) == p
  {
  }

  /** A non-empty name has a non-empty stem. */
  lemma StemNonEmpty(name: string)
    requires name != ""
    ensures Stem(name) != ""
  {
  }

  /** The name of parent + n is n when n holds no '/'. */
  lemma NameOfJoin(dir: string, n: string)
    requires dir == Parent(dir)
    requires forall i :: 0 <= i < |n| ==> n[i] != '/'
    ensures LastSlash(dir + n) == LastSlash(dir)
    ensures Parent(dir + n) == dir && Name(dir + n) == n
  {
    RFindAbsent(n, '/', |n|);
    RFindAppend(dir, n, '/');
    assert (dir + n)[..|dir|] == dir;
  }

  lemma ParentIsParent(p: string)
    ensures Parent(p) == Parent(Parent(p))
  {
    var d := Parent(p);
    var k := LastSlash(p);
    if k >= 0 {
      assert d[k] == '/';
      assert RFind(d, '/', |d|) == k;
    } else {
      assert d == "";
    }
  }

  /** The output path keeps the parent and the stem, and its suffix is ".pptx". */
  lemma OutPathShape(p: string)
    requires WithPptx(p).Some?
    ensures var q := WithPptx(p).value;
      Parent(q) == Parent(p) && Name(q) == Stem(Name(p)) + Pptx &&
      Stem(Name(q)) == Stem(Name(p)) && Suffix(Name(q)) == Pptx && EndsWith(q, Pptx)
  {
    var q := WithPptx(p).value;
    var stem := Stem(Name(p));
    var n := stem + Pptx;
    assert q == Parent(p) + n;
    NameHasNoSlash(p);
    assert forall i :: 0 <= i < |n| ==> n[i] != '/' by {
      forall i | 0 <= i < |n| ensures n[i] != '/' {
        if i < |stem| { assert n[i] == Name(p)[i]; } else { assert n[i] == Pptx[i - |stem|]; }
      }
    }
    ParentIsParent(p);
    NameOfJoin(Parent(p), n);
    assert LastDot(n) == |stem| by {
      assert RFind(Pptx, '.', |Pptx|) == 0 by {
        assert Pptx[4] != '.' && Pptx[3] != '.' && Pptx[2] != '.' && Pptx[1] != '.' && Pptx[0] == '.';
        assert RFind(Pptx, '.', 5) == RFind(Pptx, '.', 4) == RFind(Pptx, '.', 3) == RFind(Pptx, '.', 2) == RFind(Pptx, '.', 1);
      }
      RFindAppend(stem, Pptx, '.');
    }
    StemNonEmpty(Name(p));
    assert n[|stem|..] == Pptx && n[..|stem|] == stem;
    assert q[|q| - |Pptx|..] == Pptx;
  }

  /** Deriving the output path again changes nothing. */
  lemma WithPptxIdempotent(p: string)
    requires WithPptx(p).Some?
    ensures WithPptx(WithPptx(p).value) == WithPptx(p)
  {
    OutPathShape(p);
  }

  /** The output path is the input path exactly when the input already has the suffix ".pptx". */
  lemma WithPptxFixed(p: string)
    requires Name(p) != ""
    ensures WithPptx(p) == Some(p) <==> Suffix(Name(p)) == Pptx
  {
    var name := Name(p);
    ParentName(p);
    if WithPptx(p) == Some(p) {
      OutPathShape(p);
    }
    if Suffix(name) == Pptx {
      var i := LastDot(name);
      assert name == name[..i] + name[i..];
      assert Parent(p) + Stem(name) + Pptx == p;
    }
  }

  /** Exactly one argument is accepted: none or two are refused with status 1. */
  lemma UsageExamples(pathExists: string -> bool, read: string -> Option<string>)
    ensures Run(["generate_ppt_from_md_arg.py"], pathExists, read) == Usage
    ensures ExitCode(Run(["generate_ppt_from_md_arg.py", "a.md", "b.md"], pathExists, read)) == 1
  {
  }

  /** "notes/week_1.md" becomes "notes/week_1.pptx", titled "week 1". */
  lemma OutPathExample()
    ensures WithPptx("notes/week_1.md") == Some("notes/week_1.pptx")
    ensures Underscores(Stem(Name("notes/week_1.md"))) == "week 1"
  {
    var p := "notes/week_1.md";
    var dir, n := "notes/", "week_1.md";
    assert p == dir + n;
    assert RFind(p, '/', |p|) == 5 by {
      assert forall i :: 0 <= i < |n| ==> n[i] != '/';
      RFindAbsent(n, '/', |n|);
      assert dir[5] == '/';
      RFindAppend(dir, n, '/');
    }
    assert Name(p) == "week_1.md";
    assert RFind(n, '.', |n|) == 6 by {
      assert n[8] != '.' && n[7] != '.' && n[6] == '.';
      assert RFind(n, '.', 9) == RFind(n, '.', 8) == RFind(n, '.', 7);
    }
    assert Stem(n) == "week_1";
    assert Parent(p) == "notes/";
    assert "notes/" + "week_1" + Pptx == "notes/week_1.pptx";
  }
}
