/**
 * The string operations of the .NET base library that the command parsers
 * and text builders are made of: `Split(" ", RemoveEmptyEntries)`,
 * `Split(',')`, `IndexOf`, `Replace`, `Trim`, `IsNullOrWhiteSpace` and joins.
 * Strings are Dafny strings (sequences of Unicode scalar values).
 */
module Text {

  /** .NET `Char.IsWhiteSpace`: the Unicode space, line and paragraph
      separators, the controls U+0009..U+000D and U+0085. */
  predicate IsWhiteSpace(c: char)
  {
    || c == ' ' || ('\t' <= c <= '\r') || c == '\U{85}' || c == '\U{A0}'
    || c == '\U{1680}' || ('\U{2000}' <= c <= '\U{200A}') || c == '\U{2028}'
    || c == '\U{2029}' || c == '\U{202F}' || c == '\U{205F}' || c == '\U{3000}'
  }

  /** `string.IsNullOrWhiteSpace` on a non-null string. */
  predicate IsBlank(s: string)
  {
    forall i :: 0 <= i < |s| ==> IsWhiteSpace(s[i])
  }

  /** A token of `Split(" ", RemoveEmptyEntries)`: non-empty, no space. */
  predicate IsWord(w: string)
  {
    |w| > 0 && ' ' !in w
  }

  /** The characters of `s` other than `c`, in order. */
  function RemoveChar(s: string, c: char): (r: string)
    ensures c !in r
    ensures |r| <= |s|
  {
    if s == [] then []
    else if s[0] == c then RemoveChar(s[1..], c)
    else [s[0]] + RemoveChar(s[1..], c)
  }

  lemma {:induction false} RemoveCharAppend(a: string, b: string, c: char)
    ensures RemoveChar(a + b, c) == RemoveChar(a, c) + RemoveChar(b, c)
  {
    if a != [] {
      assert (a + b)[1..] == a[1..] + b;
      RemoveCharAppend(a[1..], b, c);
    } else {
      assert a + b == b;
    }
  }

  lemma {:induction false} RemoveCharAbsent(s: string, c: char)
    requires c !in s
    ensures RemoveChar(s, c) == s
  {
    if s != [] {
      RemoveCharAbsent(s[1..], c);
    }
  }

  // ---------------------------------------------------------------------
  // Split(" ", StringSplitOptions.RemoveEmptyEntries)
  // ---------------------------------------------------------------------

  /** Length of the longest prefix of `s` that holds no space. */
  function RunLength(s: string): (n: nat)
    ensures n <= |s|
    ensures forall i :: 0 <= i < n ==> s[i] != ' '
    ensures n < |s| ==> s[n] == ' '
  {
    if s == [] || s[0] == ' ' then 0 else 1 + RunLength(s[1..])
  }

  /** The maximal runs of non-space characters of `s`, in order: what
      `s.Split(" ", StringSplitOptions.RemoveEmptyEntries)` returns. */
  function Tokens(s: string): (ts: seq<string>)
    ensures forall i :: 0 <= i < |ts| ==> IsWord(ts[i])
    decreases |s|
  {
    if s == [] then []
    else if s[0] == ' ' then Tokens(s[1..])
    else
      var n := RunLength(s);
      [s[..n]] + Tokens(s[n..])
  }

  /** The strings of `parts` one after the other. */
  function Concat(parts: seq<string>): string
  {
    if parts == [] then "" else parts[0] + Concat(parts[1..])
  }

  /** `string.Join(sep, parts)`. */
  function Join(parts: seq<string>, sep: string): string
  {
    if |parts| == 0 then ""
    else if |parts| == 1 then parts[0]
    else parts[0] + sep + Join(parts[1..], sep)
  }

  /** A join of several parts is the first part, the separator, and the
      join of the rest. */
  lemma JoinCons(first: string, rest: seq<string>, sep: string)
    requires rest != []
    ensures Join([first] + rest, sep) == first + sep + Join(rest, sep)
  {
    assert ([first] + rest)[1..] == rest;
  }

  /** A join of three parts, written out. */
  lemma JoinThree(a: string, b: string, c: string, sep: string)
    ensures Join([a, b, c], sep) == a + sep + b + sep + c
  {
    JoinCons(a, [b, c], sep);
    JoinCons(b, [c], sep);
    assert [a] + [b, c] == [a, b, c];
    assert [b] + [c] == [b, c];
  }

  /** The tokens, put back together, are the input without its spaces: no
      character other than a space is lost, reordered or duplicated. */
  lemma {:induction false} TokensKeepEveryNonSpace(s: string)
    ensures Concat(Tokens(s)) == RemoveChar(s, ' ')
    decreases |s|
  {
    if s == [] {
    } else if s[0] == ' ' {
      TokensKeepEveryNonSpace(s[1..]);
    } else {
      var n := RunLength(s);
      TokensKeepEveryNonSpace(s[n..]);
      assert s == s[..n] + s[n..];
      RemoveCharAppend(s[..n], s[n..], ' ');
      RemoveCharAbsent(s[..n], ' ');
      assert Tokens(s)[1..] == Tokens(s[n..]);
    }
  }

  lemma {:induction false} RunLengthOfWord(w: string, rest: string)
    requires ' ' !in w
    requires rest == [] || rest[0] == ' '
    ensures RunLength(w + rest) == |w|
  {
    if w != [] {
      assert (w + rest)[1..] == w[1..] + rest;
      RunLengthOfWord(w[1..], rest);
    } else {
      assert w + rest == rest;
    }
  }

  /** A word followed by nothing or by a space is the first token. */
  lemma TokensOfWordThen(w: string, rest: string)
    requires IsWord(w)
    requires rest == [] || rest[0] == ' '
    ensures Tokens(w + rest) == [w] + Tokens(rest)
  {
    RunLengthOfWord(w, rest);
    var s := w + rest;
    assert s[..|w|] == w;
    assert s[|w|..] == rest;
  }

  /** Splitting words joined by single spaces gives the words back. */
  lemma {:induction false} TokensOfJoin(ws: seq<string>)
    requires forall i :: 0 <= i < |ws| ==> IsWord(ws[i])
    ensures Tokens(Join(ws, " ")) == ws
  {
    if |ws| == 0 {
    } else if |ws| == 1 {
      TokensOfWordThen(ws[0], "");
      assert ws[0] + "" == ws[0];
    } else {
      var rest := Join(ws[1..], " ");
      TokensOfJoin(ws[1..]);
      assert ws[0] + " " + rest == ws[0] + (" " + rest);
      TokensOfWordThen(ws[0], " " + rest);
      assert (" " + rest)[1..] == rest;
      assert ws == [ws[0]] + ws[1..];
    }
  }

  // ---------------------------------------------------------------------
  // IndexOf, Split(char)
  // ---------------------------------------------------------------------

  /** `s.IndexOf(c)` when `s` contains `c`: the first position holding `c`. */
  function IndexOf(s: string, c: char): (i: nat)
    requires c in s
    ensures i < |s| && s[i] == c
    ensures c !in s[..i]
  {
    if s[0] == c then 0
    else
      var k := IndexOf(s[1..], c);
      assert s[..k + 1] == [s[0]] + s[1..][..k];
      k + 1
  }

  /** `s.Split(c)` with empty entries kept: the pieces between the
      occurrences of `c`. */
  function SplitOn(s: string, c: char): (parts: seq<string>)
    ensures |parts| >= 1
    ensures forall i :: 0 <= i < |parts| ==> c !in parts[i]
    decreases |s|
  {
    if c !in s then [s]
    else
      var i := IndexOf(s, c);
      [s[..i]] + SplitOn(s[i + 1..], c)
  }

  /** Joining the pieces with the separator gives the input back. */
  lemma {:induction false} JoinSplitOn(s: string, c: char)
    ensures Join(SplitOn(s, c), [c]) == s
    decreases |s|
  {
    if c in s {
      var i := IndexOf(s, c);
      var tail := SplitOn(s[i + 1..], c);
      JoinSplitOn(s[i + 1..], c);
      assert SplitOn(s, c)[1..] == tail;
      assert s == s[..i] + [c] + s[i + 1..];
    }
  }

  /** The first `c` of `a + [c] + b`, when `a` has none, is right after `a`. */
  lemma IndexOfAfter(a: string, c: char, b: string)
    requires c !in a
    ensures c in a + [c] + b
    ensures IndexOf(a + [c] + b, c) == |a|
    ensures (a + [c] + b)[..|a|] == a && (a + [c] + b)[|a| + 1..] == b
  {
    var s := a + [c] + b;
    assert s[|a|] == c;
    assert s[..|a|] == a;
  }

  /** Splitting a join of separator-free pieces gives the pieces back. */
  lemma {:induction false} SplitOnJoin(parts: seq<string>, c: char)
    requires |parts| >= 1
    requires forall i :: 0 <= i < |parts| ==> c !in parts[i]
    ensures SplitOn(Join(parts, [c]), c) == parts
  {
    if |parts| > 1 {
      var rest := Join(parts[1..], [c]);
      assert Join(parts, [c]) == parts[0] + [c] + rest;
      IndexOfAfter(parts[0], c, rest);
      SplitOnJoin(parts[1..], c);
      calc {
        SplitOn(parts[0] + [c] + rest, c);
        [parts[0]] + SplitOn(rest, c);
        [parts[0]] + parts[1..];
        parts;
      }
    }
  }

  // ---------------------------------------------------------------------
  // Replace, Trim
  // ---------------------------------------------------------------------

  /** `pat` occurs in `s` at position `i`. */
  predicate OccursAt(s: string, pat: string, i: nat)
  {
    i + |pat| <= |s| && s[i..i + |pat|] == pat
  }

  /** `s.Replace(pat, rep)`: scans left to right and replaces each
      non-overlapping occurrence of `pat` (which .NET requires non-empty). */
  function Replace(s: string, pat: string, rep: string): string
    requires |pat| > 0
    decreases |s|
  {
    if |s| < |pat| then s
    else if s[..|pat|] == pat then rep + Replace(s[|pat|..], pat, rep)
    else [s[0]] + Replace(s[1..], pat, rep)
  }

  /** Without an occurrence of the pattern, Replace changes nothing. */
  lemma {:induction false} ReplaceAbsent(s: string, pat: string, rep: string)
    requires |pat| > 0
    requires forall i: nat :: !OccursAt(s, pat, i)
    ensures Replace(s, pat, rep) == s
    decreases |s|
  {
    if |s| >= |pat| {
      assert !OccursAt(s, pat, 0);
      assert s[..|pat|] == s[0..0 + |pat|];
      forall i: nat ensures !OccursAt(s[1..], pat, i) {
        assert !OccursAt(s, pat, i + 1);
        if i + |pat| <= |s[1..]| {
          assert s[1..][i..i + |pat|] == s[i + 1..i + 1 + |pat|];
        }
      }
      ReplaceAbsent(s[1..], pat, rep);
    }
  }

  /** A prefix none of whose characters starts the pattern is copied as is. */
  lemma {:induction false} ReplaceSkipsPrefix(a: string, s: string, pat: string, rep: string)
    requires |pat| > 0
    requires pat[0] !in a
    ensures Replace(a + s, pat, rep) == a + Replace(s, pat, rep)
  {
    if a != [] {
      var t := a + s;
      assert t[0] == a[0];
      if |t| >= |pat| {
        assert t[..|pat|][0] != pat[0];
      }
      assert t[1..] == a[1..] + s;
      ReplaceSkipsPrefix(a[1..], s, pat, rep);
    } else {
      assert a + s == s;
    }
  }

  /** Replacing a one-character pattern by nothing removes that character. */
  lemma {:induction false} ReplaceCharByNothing(s: string, c: char)
    ensures Replace(s, [c], "") == RemoveChar(s, c)
  {
    if s != [] {
      assert s[..1] == [s[0]];
      ReplaceCharByNothing(s[1..], c);
    }
  }

  /** How many white-space characters `s` starts with. */
  function LeadingWhiteSpace(s: string): (n: nat)
    ensures n <= |s|
    ensures forall i :: 0 <= i < n ==> IsWhiteSpace(s[i])
    ensures n < |s| ==> !IsWhiteSpace(s[n])
  {
    if s != [] && IsWhiteSpace(s[0]) then 1 + LeadingWhiteSpace(s[1..]) else 0
  }

  /** How many white-space characters `s` ends with. */
  function TrailingWhiteSpace(s: string): (n: nat)
    ensures n <= |s|
    ensures forall i :: |s| - n <= i < |s| ==> IsWhiteSpace(s[i])
    ensures n < |s| ==> !IsWhiteSpace(s[|s| - n - 1])
  {
    if s != [] && IsWhiteSpace(s[|s| - 1]) then 1 + TrailingWhiteSpace(s[..|s| - 1]) else 0
  }

  /** `s.Trim()`: `s` without the white space it starts and ends with. */
  function Trim(s: string): (r: string)
    ensures |r| <= |s|
  {
    var t := s[LeadingWhiteSpace(s)..];
    t[..|t| - TrailingWhiteSpace(t)]
  }

  /** The trimmed text is a middle piece of `s` that neither starts nor
      ends with white space. */
  lemma TrimIsMiddle(s: string)
    ensures var r, k := Trim(s), LeadingWhiteSpace(s);
      && k + |r| <= |s| && s[k..k + |r|] == r
      && (r == [] || (!IsWhiteSpace(r[0]) && !IsWhiteSpace(r[|r| - 1])))
  {
    var k := LeadingWhiteSpace(s);
    var t := s[k..];
    var n := TrailingWhiteSpace(t);
    var r := t[..|t| - n];
    assert r == Trim(s);
    if r != [] {
      assert r[0] == s[k];
      assert r[|r| - 1] == t[|t| - n - 1];
    }
  }

  /** Everything trimming cuts off is white space. */
  lemma TrimCutsWhiteSpace(s: string)
    ensures var r, k := Trim(s), LeadingWhiteSpace(s);
      && k + |r| <= |s|
      && (forall i :: 0 <= i < k ==> IsWhiteSpace(s[i]))
      && (forall i :: k + |r| <= i < |s| ==> IsWhiteSpace(s[i]))
  {
    var k := LeadingWhiteSpace(s);
    var t := s[k..];
    var n := TrailingWhiteSpace(t);
    assert |Trim(s)| == |t| - n;
    forall i | k + |t| - n <= i < |s|
      ensures IsWhiteSpace(s[i])
    {
      assert s[i] == t[i - k];
    }
  }

  // ---------------------------------------------------------------------
  // Slack links
  // ---------------------------------------------------------------------

  /** The text after the first '|' with every '>' removed: how a Slack
      link `<url|text>` is turned into its text,
      `s.Substring(s.IndexOf("|") + 1).Replace(">", "")`. */
  function LinkText(s: string): (r: string)
    requires '|' in s
    ensures '>' !in r
  {
    var r := Replace(s[IndexOf(s, '|') + 1..], ">", "");
    ReplaceCharByNothing(s[IndexOf(s, '|') + 1..], '>');
    r
  }

  /** Unwrapping a Slack link gives back the text it shows. */
  lemma LinkTextOfSlackLink(url: string, text: string)
    requires '|' !in url
    requires '>' !in text
    ensures LinkText("<" + url + "|" + text + ">") == text
  {
    var s := "<" + url + "|" + text + ">";
    assert s[|url| + 1] == '|';
    assert s[..|url| + 1] == "<" + url;
    assert '|' !in s[..|url| + 1];
    assert IndexOf(s, '|') == |url| + 1;
    var i := IndexOf(s, '|');
    assert s[i + 1..] == text + ">";
    ReplaceCharByNothing(text + ">", '>');
    RemoveCharAppend(text, ">", '>');
    RemoveCharAbsent(text, '>');
  }
}
