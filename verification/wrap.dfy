/**
 * `wrap_text` of the slide generator: a long paragraph is cut into chunks
 * of at most n characters, preferably at the last space before the limit.
 */
module TextWrap {

  /** `text.rfind(c, 0, end)`: the last index below `end` holding c, or -1. */
  function RFind(text: string, c: char, end: nat): (r: int)
    requires end <= |text|
    ensures -1 <= r < end
    ensures r >= 0 ==> text[r] == c
    decreases end
  {
    if end == 0 then -1 else if text[end - 1] == c then end - 1 else RFind(text, c, end - 1)
  }

  /** No occurrence of c lies between the one found and `end`. */
  lemma {:induction false} RFindLast(text: string, c: char, end: nat, i: nat)
    requires end <= |text| && RFind(text, c, end) < i < end
    ensures text[i] != c
    decreases end
  {
    if text[end - 1] != c && i < end - 1 {
      RFindLast(text, c, end - 1, i);
    }
  }

  /** Where a text longer than n is cut: the last space before n, else n itself. */
  function CutAt(text: string, n: nat): (idx: nat)
    requires |text| > n
    ensures idx <= n
    ensures idx < n ==> text[idx] == ' '
  {
    var found := RFind(text, ' ', n);
    if found == -1 then n else found
  }

  /** wrap_text as written: the character at the cut is dropped, whether or not it is a space. */
  function Wrap(text: string, n: nat): seq<string>
    decreases |text|
  {
    if |text| > n then
      var idx := CutAt(text, n);
      [text[..idx]] + Wrap(text[idx + 1..], n)
    else if text == [] then []
    else [text]
  }

  /** The loop of wrap_text: cut while the rest is longer than n, then keep what is left if anything. */
  method WrapText(text: string, n: nat) returns (lines: seq<string>)
    ensures lines == Wrap(text, n)
  {
    lines := [];
    var rest := text;
    while |rest| > n
      invariant lines + Wrap(rest, n) == Wrap(text, n)
      decreases |rest|
    {
      var idx := RFind(rest, ' ', n);
      if idx == -1 {
        idx := n;
      }
      assert Wrap(rest, n) == [rest[..idx]] + Wrap(rest[idx + 1..], n);
      lines := lines + [rest[..idx]];
      rest := rest[idx + 1..];
    }
    if rest != [] {
      assert Wrap(rest, n) == [rest];
      lines := lines + [rest];
    } else {
      assert lines + Wrap(rest, n) == lines;
    }
  }

  /** Every chunk is at most n characters long, and an empty text gives no chunk. */
  lemma {:induction false} WrapBounds(text: string, n: nat)
    ensures text == [] ==> Wrap(text, n) == []
    ensures forall i :: 0 <= i < |Wrap(text, n)| ==> |Wrap(text, n)[i]| <= n
    decreases |text|
  {
    if |text| > n {
      var idx := CutAt(text, n);
      WrapBounds(text[idx + 1..], n);
      var w := Wrap(text, n);
      assert w == [text[..idx]] + Wrap(text[idx + 1..], n);
      forall i | 0 <= i < |w| ensures |w[i]| <= n {
        if i > 0 { assert w[i] == Wrap(text[idx + 1..], n)[i - 1]; }
      }
    }
  }

  /** A non-empty text that fits is one chunk, unchanged. */
  lemma WrapFits(text: string, n: nat)
    requires 0 < |text| <= n
    ensures Wrap(text, n) == [text]
  {
  }

  /** All the chunks written one after the other. */
  function Concat(chunks: seq<string>): string
    decreases |chunks|
  {
    if chunks == [] then "" else chunks[0] + Concat(chunks[1..])
  }

  /** The text's characters other than spaces, in order. */
  function NonSpace(s: string): string
    decreases |s|
  {
    if s == [] then "" else (if s[0] == ' ' then "" else [s[0]]) + NonSpace(s[1..])
  }

  /** A word longer than the limit loses its (n+1)-th character: "abcde" cut at 4 gives only "abcd". */
  lemma WrapDropsLetter()
    ensures Wrap("abcde", 4) == ["abcd"]
    ensures NonSpace(Concat(Wrap("abcde", 4))) != NonSpace("abcde")
  {
    var text := "abcde";
    assert RFind(text, ' ', 4) == -1;
    assert text[..4] == "abcd" && text[5..] == "";
    assert Wrap(text, 4) == ["abcd"];
    assert Concat(["abcd"]) == "abcd" by { assert ["abcd"][1..] == []; }
    assert |NonSpace("abcd")| <= 4 by { NonSpaceShorter("abcd"); }
    assert |NonSpace(text)| == 5 by { NoSpaceKept(text); }
  }

  lemma {:induction false} NonSpaceShorter(s: string)
    ensures |NonSpace(s)| <= |s|
    decreases |s|
  {
    if s != [] { NonSpaceShorter(s[1..]); }
  }

  lemma {:induction false} NoSpaceKept(s: string)
    requires forall i :: 0 <= i < |s| ==> s[i] != ' '
    ensures NonSpace(s) == s
    decreases |s|
  {
    if s != [] {
      NoSpaceKept(s[1..]);
      assert [s[0]] + s[1..] == s;
    }
  }

  /** wrap_text with a cut inside a word keeping the character at the cut. */
  function WrapFixed(text: string, n: nat): seq<string>
    requires n > 0
    decreases |text|
  {
    if |text| > n then
      var found := RFind(text, ' ', n);
      if found == -1 then [text[..n]] + WrapFixed(text[n..], n)
      else [text[..found]] + WrapFixed(text[found + 1..], n)
    else if text == [] then []
    else [text]
  }

  lemma {:induction false} NonSpaceAppend(a: string, b: string)
    ensures NonSpace(a + b) == NonSpace(a) + NonSpace(b)
    decreases |a|
  {
    if a != [] {
      assert (a + b)[0] == a[0] && (a + b)[1..] == a[1..] + b;
      NonSpaceAppend(a[1..], b);
    } else {
      assert a + b == b;
    }
  }

  /** The corrected wrap loses no character but the spaces it breaks at. */
  lemma {:induction false} WrapFixedKeepsText(text: string, n: nat)
    requires n > 0
    ensures NonSpace(Concat(WrapFixed(text, n))) == NonSpace(text)
    decreases |text|
  {
    if |text| > n {
      var found := RFind(text, ' ', n);
      var cut: nat := if found == -1 then n else found;
      var skip: nat := if found == -1 then n else found + 1;
      var tail := WrapFixed(text[skip..], n);
      assert WrapFixed(text, n) == [text[..cut]] + tail;
      assert NonSpace(Concat(tail)) == NonSpace(text[skip..]) by {
        WrapFixedKeepsText(text[skip..], n);
      }
      assert NonSpace(Concat([text[..cut]] + tail)) == NonSpace(text[..cut]) + NonSpace(Concat(tail)) by {
        assert Concat([text[..cut]] + tail) == text[..cut] + Concat(tail) by {
          assert ([text[..cut]] + tail)[1..] == tail;
        }
        NonSpaceAppend(text[..cut], Concat(tail));
      }
      assert NonSpace(text) == NonSpace(text[..cut]) + NonSpace(text[skip..]) by {
        assert NonSpace(text[cut..]) == NonSpace(text[skip..]) by {
          if found != -1 {
            assert text[cut..][0] == ' ' && text[cut..][1..] == text[skip..];
          }
        }
        assert text == text[..cut] + text[cut..];
        NonSpaceAppend(text[..cut], text[cut..]);
      }
    } else if text != [] {
      assert Concat([text]) == text by { assert |[text][1..]| == 0; }
    }
  }

  /** Every chunk of the corrected wrap still fits in n characters. */
  lemma {:induction false} WrapFixedFits(text: string, n: nat)
    requires n > 0
    ensures forall i :: 0 <= i < |WrapFixed(text, n)| ==> |WrapFixed(text, n)[i]| <= n
    decreases |text|
  {
    if |text| > n {
      var found := RFind(text, ' ', n);
      var cut: nat := if found == -1 then n else found;
      var skip: nat := if found == -1 then n else found + 1;
      var tail := WrapFixed(text[skip..], n);
      var w := WrapFixed(text, n);
      assert w == [text[..cut]] + tail;
      WrapFixedFits(text[skip..], n);
      forall i | 0 <= i < |w| ensures |w[i]| <= n {
        if i > 0 { assert w[i] == tail[i - 1]; }
      }
    }
  }
}
