/**
 * The java.lang.String operations the vehicle code relies on, on strings
 * modelled as sequences of characters. Case mapping is ASCII-only.
 */
module JavaText {
  import opened Wrappers

  /** A Java String reference: None is null. */
  type JStr = Option<string>

  function LowerChar(c: char): char {
    if 'A' <= c <= 'Z' then (c as int + 32) as char else c
  }

  /** String.toLowerCase, for the ASCII letters. */
  function Lower(s: string): (r: string)
    ensures |r| == |s| && forall i :: 0 <= i < |s| ==> r[i] == LowerChar(s[i])
  {
    seq(|s|, i requires 0 <= i < |s| => LowerChar(s[i]))
  }

  /** String.equalsIgnoreCase on non-null strings, for the ASCII letters. */
  predicate EqualsIgnoreCase(a: string, b: string) {
    Lower(a) == Lower(b)
  }

  /** String.trim removes every leading and trailing character whose code is at most U+0020. */
  predicate IsTrimmed(c: char) { c <= ' ' }

  /** Drops the leading characters trim removes. */
  function TrimStart(s: string): string
    decreases |s|
  {
    if s != [] && IsTrimmed(s[0]) then TrimStart(s[1..]) else s
  }

  /** Drops the trailing characters trim removes. */
  function TrimEnd(s: string): string
    decreases |s|
  {
    if s != [] && IsTrimmed(s[|s| - 1]) then TrimEnd(s[..|s| - 1]) else s
  }

  /** String.trim. */
  function Trim(s: string): string {
    TrimEnd(TrimStart(s))
  }

  /** TrimStart leaves a suffix that starts with a visible character. */
  lemma {:induction false} TrimStartSuffix(s: string)
    ensures |TrimStart(s)| <= |s| && TrimStart(s) == s[|s| - |TrimStart(s)|..]
    ensures TrimStart(s) == [] || !IsTrimmed(TrimStart(s)[0])
    decreases |s|
  {
    if s != [] && IsTrimmed(s[0]) {
      TrimStartSuffix(s[1..]);
    }
  }

  /** TrimEnd leaves a prefix that ends with a visible character. */
  lemma {:induction false} TrimEndPrefix(s: string)
    ensures |TrimEnd(s)| <= |s| && TrimEnd(s) == s[..|TrimEnd(s)|]
    ensures TrimEnd(s) == [] || !IsTrimmed(TrimEnd(s)[|TrimEnd(s)| - 1])
    decreases |s|
  {
    if s != [] && IsTrimmed(s[|s| - 1]) {
      TrimEndPrefix(s[..|s| - 1]);
    }
  }

  /** What trim leaves is empty or begins and ends with a visible character. */
  lemma TrimEnds(s: string)
    ensures var r := Trim(s); r == [] || (!IsTrimmed(r[0]) && !IsTrimmed(r[|r| - 1]))
  {
    var t := TrimStart(s);
    TrimStartSuffix(s);
    TrimEndPrefix(t);
    var r := TrimEnd(t);
    if r != [] {
      assert r[0] == t[0];
    }
  }

  /** A string that begins and ends with a visible character is its own trim. */
  lemma TrimOfVisible(s: string)
    requires s == [] || (!IsTrimmed(s[0]) && !IsTrimmed(s[|s| - 1]))
    ensures Trim(s) == s
  {
  }

  /** q occurs in s at offset i. */
  predicate OccursAt(s: string, q: string, i: nat) {
    i + |q| <= |s| && s[i..i + |q|] == q
  }

  /** String.contains. */
  predicate Contains(s: string, q: string) {
    exists i :: 0 <= i <= |s| - |q| && OccursAt(s, q, i)
  }

  /** A string that contains q at offset i contains q. */
  lemma ContainsAt(s: string, q: string, i: nat)
    requires OccursAt(s, q, i)
    ensures Contains(s, q)
  {
  }

  /** Every string contains the empty string. */
  lemma ContainsEmpty(s: string)
    ensures Contains(s, "")
  {
    ContainsAt(s, "", 0);
  }

  /** s.replace("\"", "\\\""): every double quote gets a backslash in front. */
  function Escape(s: string): (r: string)
    ensures |r| >= |s|
    ensures r != [] ==> r[0] != '"'
  {
    if s == [] then []
    else (if s[0] == '"' then "\\\"" else [s[0]]) + Escape(s[1..])
  }

  /** Escaping changes nothing in a text without quotes. */
  lemma {:induction false} EscapeNone(s: string)
    requires forall i :: 0 <= i < |s| ==> s[i] != '"'
    ensures Escape(s) == s
    decreases |s|
  {
    if s != [] {
      EscapeNone(s[1..]);
      assert [s[0]] + s[1..] == s;
    }
  }

  /** Drops the backslash in front of each double quote: the inverse of Escape. */
  function Unescape(t: string): string {
    if t == [] then []
    else if |t| >= 2 && t[0] == '\\' && t[1] == '"' then "\"" + Unescape(t[2..])
    else [t[0]] + Unescape(t[1..])
  }

  /** Escape loses nothing: Unescape recovers the original string. */
  lemma {:induction false} UnescapeEscape(s: string)
    ensures Unescape(Escape(s)) == s
  {
    if s != [] {
      var rest := Escape(s[1..]);
      UnescapeEscape(s[1..]);
      if s[0] == '"' {
        assert Escape(s) == "\\\"" + rest;
        assert Escape(s)[2..] == rest;
      } else {
        assert Escape(s) == [s[0]] + rest;
        assert Escape(s)[1..] == rest;
      }
    }
  }

  /** s.replaceAll("\"", ""): every double quote removed. */
  function RemoveQuotes(s: string): (r: string)
    ensures forall i :: 0 <= i < |r| ==> r[i] != '"'
  {
    if s == [] then [] else (if s[0] == '"' then [] else [s[0]]) + RemoveQuotes(s[1..])
  }

  /** A text without quotes is left unchanged. */
  lemma {:induction false} RemoveQuotesNone(s: string)
    requires forall i :: 0 <= i < |s| ==> s[i] != '"'
    ensures RemoveQuotes(s) == s
    decreases |s|
  {
    if s != [] {
      RemoveQuotesNone(s[1..]);
      assert [s[0]] + s[1..] == s;
    }
  }

  /** The first index of c in s, or -1. */
  function Find(s: string, c: char): (r: int)
    ensures -1 <= r < |s|
    ensures r >= 0 ==> s[r] == c
    decreases |s|
  {
    if s == [] then -1
    else if s[0] == c then 0
    else var j := Find(s[1..], c); if j < 0 then -1 else j + 1
  }

  /** No c comes before the index Find returns, and none at all when it returns -1. */
  lemma {:induction false} FindFirst(s: string, c: char)
    ensures forall k :: 0 <= k < |s| && (Find(s, c) < 0 || k < Find(s, c)) ==> s[k] != c
    decreases |s|
  {
    if s != [] && s[0] != c {
      FindFirst(s[1..], c);
      assert forall k :: 1 <= k < |s| ==> s[k] == s[1..][k - 1];
    }
  }

  /** String.indexOf(c, from): the first index at or after from holding c, or -1. */
  function IndexOf(s: string, c: char, from: nat): (r: int)
    ensures r == -1 || (from <= r < |s| && s[r] == c)
    decreases |s| - from
  {
    if from >= |s| then -1
    else if s[from] == c then from
    else IndexOf(s, c, from + 1)
  }

  /** No c lies between from and the index IndexOf returns, and none after from when it returns -1. */
  lemma {:induction false} IndexOfFirst(s: string, c: char, from: nat)
    ensures forall k :: from <= k < |s| && (IndexOf(s, c, from) < 0 || k < IndexOf(s, c, from)) ==> s[k] != c
    decreases |s| - from
  {
    if from < |s| && s[from] != c {
      IndexOfFirst(s, c, from + 1);
    }
  }

  /**
   * s.split(c, 2) for a one-character literal c: None when c does not occur
   * (the array has one element), else the parts before and after the first c.
   */
  function SplitOnce(s: string, c: char): (r: Option<(string, string)>)
    ensures r.None? <==> forall k :: 0 <= k < |s| ==> s[k] != c
    ensures r.Some? ==> s == r.value.0 + [c] + r.value.1
    ensures r.Some? ==> forall k :: 0 <= k < |r.value.0| ==> r.value.0[k] != c
  {
    var j := Find(s, c);
    FindSplits(s, c);
    if j < 0 then None else Some((s[..j], s[j + 1..]))
  }

  /** What SplitOnce needs of Find: no c at all, or a first c that cuts s in two. */
  lemma FindSplits(s: string, c: char)
    ensures Find(s, c) < 0 <==> forall k :: 0 <= k < |s| ==> s[k] != c
    ensures Find(s, c) >= 0 ==>
              var j := Find(s, c);
              s == s[..j] + [c] + s[j + 1..] && forall k :: 0 <= k < j ==> s[..j][k] != c
  {
    var j := Find(s, c);
    FindFirst(s, c);
    if j >= 0 {
      assert s[j] == c;
      assert s == s[..j] + [c] + s[j + 1..];
    }
  }

  /** The pieces of s between occurrences of c, keeping empty ones. */
  function Pieces(s: string, c: char): (r: seq<string>)
    ensures |r| > 0
    decreases |s|
  {
    var j := Find(s, c);
    if j < 0 then [s] else [s[..j]] + Pieces(s[j + 1..], c)
  }

  /** Joining the pieces with c restores s, and no piece contains c. */
  lemma {:induction false} PiecesJoin(s: string, c: char)
    ensures Join(Pieces(s, c), [c]) == s
    ensures forall i, k :: 0 <= i < |Pieces(s, c)| && 0 <= k < |Pieces(s, c)[i]| ==> Pieces(s, c)[i][k] != c
    decreases |s|
  {
    FindFirst(s, c);
    var j := Find(s, c);
    if j >= 0 {
      var rest := s[j + 1..];
      PiecesJoin(rest, c);
      var ps := Pieces(rest, c);
      assert Pieces(s, c) == [s[..j]] + ps;
      assert ([s[..j]] + ps)[1..] == ps;
      assert Join(Pieces(s, c), [c]) == s[..j] + [c] + Join(ps, [c]);
      assert s == s[..j] + [c] + rest;
      forall i, k | 0 <= i < |Pieces(s, c)| && 0 <= k < |Pieces(s, c)[i]|
        ensures Pieces(s, c)[i][k] != c
      {
        if i > 0 {
          assert Pieces(s, c)[i] == ps[i - 1];
        }
      }
    }
  }

  function DropTrailingEmpty(ps: seq<string>): (r: seq<string>)
    ensures |r| <= |ps| && r == ps[..|r|]
    ensures r == [] || r[|r| - 1] != ""
  {
    if ps != [] && ps[|ps| - 1] == "" then DropTrailingEmpty(ps[..|ps| - 1]) else ps
  }

  /**
   * s.split(c) for a one-character literal c: the whole string when c does
   * not occur; otherwise the pieces with trailing empty strings removed.
   */
  function JavaSplit(s: string, c: char): seq<string> {
    if Find(s, c) < 0 then [s] else DropTrailingEmpty(Pieces(s, c))
  }

  /** Removing quotes distributes over concatenation. */
  lemma {:induction false} RemoveQuotesAppend(a: string, b: string)
    ensures RemoveQuotes(a + b) == RemoveQuotes(a) + RemoveQuotes(b)
  {
    if a != [] {
      var h := if a[0] == '"' then "" else [a[0]];
      assert RemoveQuotes(a + b) == h + RemoveQuotes(a[1..] + b) by {
        assert (a + b)[0] == a[0] && (a + b)[1..] == a[1..] + b;
      }
      assert RemoveQuotes(a[1..] + b) == RemoveQuotes(a[1..]) + RemoveQuotes(b) by {
        RemoveQuotesAppend(a[1..], b);
      }
      assert RemoveQuotes(a) == h + RemoveQuotes(a[1..]);
    } else {
      assert a + b == b;
    }
  }

  /** String.join(sep, parts). */
  function Join(parts: seq<string>, sep: string): string
    decreases |parts|
  {
    if |parts| == 0 then ""
    else if |parts| == 1 then parts[0]
    else parts[0] + sep + Join(parts[1..], sep)
  }

  /** Appending one more part adds a separator and the part at the end. */
  lemma {:induction false} JoinSnoc(parts: seq<string>, x: string, sep: string)
    requires |parts| > 0
    ensures Join(parts + [x], sep) == Join(parts, sep) + sep + x
    decreases |parts|
  {
    if |parts| > 1 {
      assert (parts + [x])[1..] == parts[1..] + [x];
      JoinSnoc(parts[1..], x, sep);
    } else {
      assert parts + [x] == [parts[0], x];
      assert [parts[0], x][1..] == [x];
    }
  }

  /** Joining a part in front of at least one more puts the separator between them. */
  lemma JoinCons(x: string, rest: seq<string>, sep: string)
    requires rest != []
    ensures Join([x] + rest, sep) == x + sep + Join(rest, sep)
  {
    assert ([x] + rest)[1..] == rest;
  }
}
