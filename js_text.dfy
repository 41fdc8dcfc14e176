/**
 * The JavaScript string operations the application relies on, stated on
 * `seq<char>`: truthiness and `||` on optional string properties,
 * `String.prototype.trim`, `indexOf`/`lastIndexOf` of one character,
 * `substring` with its argument clamping and swapping, `includes`, global
 * replacement of a literal pattern by the empty string, `split` on one
 * character, and ASCII `toLowerCase`.
 */
module JsText {
  import opened Wrappers

  // ---------------------------------------------------------------------
  // Truthiness
  // ---------------------------------------------------------------------

  /** A string property is truthy when it is present and not the empty string. */
  predicate Truthy(s: Option<string>) {
    s.Some? && s.value != []
  }

  /** `s || fallback` for a string property that may be absent. */
  function Or(s: Option<string>, fallback: string): (r: string)
    ensures Truthy(s) ==> r == s.value
    ensures !Truthy(s) ==> r == fallback
    ensures fallback != [] ==> r != []
  {
    if Truthy(s) then s.value else fallback
  }

  // ---------------------------------------------------------------------
  // Substrings and occurrences
  // ---------------------------------------------------------------------

  /** `r` occurs in `s` as a contiguous slice. */
  ghost predicate IsSliceOf(r: string, s: string) {
    exists a, b :: 0 <= a <= b <= |s| && r == s[a..b]
  }

  /** A slice given by its bounds. */
  lemma SliceAt(r: string, s: string, a: int, b: int)
    requires 0 <= a <= b <= |s| && r == s[a..b]
    ensures IsSliceOf(r, s)
  {
  }

  /** `s.includes(sub)`. */
  predicate Includes(s: string, sub: string) {
    exists i, j :: 0 <= i <= j <= |s| && s[i..j] == sub
  }

  /** A slice of a string that does not include `sub` does not include it either. */
  lemma SliceExcludes(r: string, s: string, sub: string)
    requires IsSliceOf(r, s) && !Includes(s, sub)
    ensures !Includes(r, sub)
  {
    var a, b :| 0 <= a <= b <= |s| && r == s[a..b];
    forall i, j | 0 <= i <= j <= |r|
      ensures r[i..j] != sub
    {
      assert |r| == b - a;
      assert forall k :: 0 <= k < j - i ==> r[i..j][k] == s[a + i..a + j][k];
      assert r[i..j] == s[a + i..a + j];
    }
  }

  /** A slice is no longer than the string it is taken from. */
  lemma SliceLength(r: string, s: string)
    requires IsSliceOf(r, s)
    ensures |r| <= |s|
  {
    var a, b :| 0 <= a <= b <= |s| && r == s[a..b];
  }

  /** Being a slice is transitive. */
  lemma SliceTransitive(r: string, s: string, t: string)
    requires IsSliceOf(r, s) && IsSliceOf(s, t)
    ensures IsSliceOf(r, t)
  {
    var a, b :| 0 <= a <= b <= |s| && r == s[a..b];
    var c, d :| 0 <= c <= d <= |t| && s == t[c..d];
    assert r == t[c + a..c + b] by {
      assert |r| == b - a;
      forall k | 0 <= k < b - a
        ensures r[k] == t[c + a..c + b][k]
      {
        assert r[k] == s[a + k] == t[c + a + k];
      }
    }
  }

  // ---------------------------------------------------------------------
  // trim
  // ---------------------------------------------------------------------

  /**
   * The code points ECMAScript counts as WhiteSpace or LineTerminator:
   * TAB, VT, FF, ZWNBSP, the Unicode space separators (category Zs), LF,
   * CR, LINE SEPARATOR and PARAGRAPH SEPARATOR.
   */
  predicate IsWhitespace(c: char) {
    || c == '\t' || c == '\U{000B}' || c == '\U{000C}' || c == '\U{FEFF}'
    || c == ' ' || c == '\U{00A0}' || c == '\U{1680}' || ('\U{2000}' <= c <= '\U{200A}')
    || c == '\U{202F}' || c == '\U{205F}' || c == '\U{3000}'
    || c == '\n' || c == '\r' || c == '\U{2028}' || c == '\U{2029}'
  }

  /** Every character of `s` is whitespace. */
  predicate Blank(s: string) {
    forall i :: 0 <= i < |s| ==> IsWhitespace(s[i])
  }

  /** The first index at or after `i` that does not hold whitespace, or `|s|`. */
  function SkipBlanks(s: string, i: nat): (r: nat)
    requires i <= |s|
    ensures i <= r <= |s| && (r == |s| || !IsWhitespace(s[r]))
    ensures forall x :: i <= x < r ==> IsWhitespace(s[x])
    decreases |s| - i
  {
    if i < |s| && IsWhitespace(s[i]) then SkipBlanks(s, i + 1) else i
  }

  /** Where the trailing whitespace of `s[lo..j]` begins: `j` less the length of that run. */
  function SkipBlanksBack(s: string, lo: nat, j: nat): (r: nat)
    requires lo <= j <= |s|
    ensures lo <= r <= j && (r == lo || !IsWhitespace(s[r - 1]))
    ensures forall x :: r <= x < j ==> IsWhitespace(s[x])
  {
    if lo < j && IsWhitespace(s[j - 1]) then SkipBlanksBack(s, lo, j - 1) else j
  }

  /** `s.trim()`: the slice of `s` between its leading and trailing whitespace. */
  function Trim(s: string): (r: string)
    ensures IsSliceOf(r, s)
    ensures r == [] || (!IsWhitespace(r[0]) && !IsWhitespace(r[|r| - 1]))
    ensures r == [] <==> Blank(s)
  {
    var lo := SkipBlanks(s, 0);
    s[lo..SkipBlanksBack(s, lo, |s|)]
  }

  /**
   * `trim` removes whitespace at the two ends and nothing else: `Trim(s)` is
   * the slice of `s` between its blank leading and blank trailing parts.
   */
  lemma TrimRemovesEnds(s: string)
    ensures var k := SkipBlanks(s, 0);
            k + |Trim(s)| <= |s|
            && Trim(s) == s[k..k + |Trim(s)|]
            && Blank(s[..k]) && Blank(s[k + |Trim(s)|..])
  {
    var k := SkipBlanks(s, 0);
    var pre, post := s[..k], s[SkipBlanksBack(s, k, |s|)..];
    forall x | 0 <= x < |pre|
      ensures IsWhitespace(pre[x])
    {
      assert pre[x] == s[x];
    }
    forall x | 0 <= x < |post|
      ensures IsWhitespace(post[x])
    {
      assert post[x] == s[SkipBlanksBack(s, k, |s|) + x];
    }
  }

  /** A string that neither starts nor ends with whitespace is its own trim. */
  lemma TrimUnchanged(s: string)
    requires s == [] || (!IsWhitespace(s[0]) && !IsWhitespace(s[|s| - 1]))
    ensures Trim(s) == s
  {
  }

  // ---------------------------------------------------------------------
  // indexOf, lastIndexOf, substring
  // ---------------------------------------------------------------------

  /** `s.indexOf(c)`: the first index of `c`, or -1. */
  function IndexOf(s: string, c: char): (r: int)
    ensures -1 <= r < |s|
    ensures r == -1 <==> c !in s
    ensures 0 <= r ==> s[r] == c && c !in s[..r]
  {
    if s == [] then -1
    else if s[0] == c then 0
    else
      var k := IndexOf(s[1..], c);
      assert s == [s[0]] + s[1..];
      if k == -1 then -1
      else
        assert s[..k + 1] == [s[0]] + s[1..][..k];
        k + 1
  }

  /** `s.lastIndexOf(c)`: the last index of `c`, or -1. */
  function LastIndexOf(s: string, c: char): (r: int)
    ensures -1 <= r < |s|
    ensures r == -1 <==> c !in s
    ensures 0 <= r ==> s[r] == c && c !in s[r + 1..]
  {
    if s == [] then -1
    else if s[|s| - 1] == c then |s| - 1
    else
      var k := LastIndexOf(s[..|s| - 1], c);
      assert s == s[..|s| - 1] + [s[|s| - 1]];
      assert k >= 0 ==> s[k + 1..] == s[..|s| - 1][k + 1..] + [s[|s| - 1]];
      k
  }

  /** ToIntegerOrInfinity followed by clamping into `0..len`. */
  function Clamp(x: int, len: nat): (r: nat)
    ensures r <= len
  {
    if x < 0 then 0 else if x > len then len else x
  }

  /**
   * `s.substring(indexStart, indexEnd)`: both arguments are clamped to
   * `0..|s|` and, when the first exceeds the second, swapped.
   */
  function Substring(s: string, indexStart: int, indexEnd: int): (r: string)
    ensures |r| <= |s|
  {
    var a := Clamp(indexStart, |s|);
    var b := Clamp(indexEnd, |s|);
    if a <= b then s[a..b] else s[b..a]
  }

  /** With its arguments in order, `substring` is the slice between them. */
  lemma SubstringInOrder(s: string, indexStart: int, indexEnd: int)
    requires 0 <= indexStart <= indexEnd <= |s|
    ensures Substring(s, indexStart, indexEnd) == s[indexStart..indexEnd]
  {
  }

  /** With its arguments out of order, `substring` swaps them. */
  lemma SubstringSwapped(s: string, indexStart: int, indexEnd: int)
    requires 0 <= indexEnd <= indexStart <= |s|
    ensures Substring(s, indexStart, indexEnd) == s[indexEnd..indexStart]
  {
  }

  /** Whatever its arguments, `substring` returns a slice of `s`. */
  lemma SubstringIsSlice(s: string, indexStart: int, indexEnd: int)
    ensures IsSliceOf(Substring(s, indexStart, indexEnd), s)
  {
    var a := Clamp(indexStart, |s|);
    var b := Clamp(indexEnd, |s|);
    if a <= b {
      SliceAt(Substring(s, indexStart, indexEnd), s, a, b);
    } else {
      SliceAt(Substring(s, indexStart, indexEnd), s, b, a);
    }
  }

  // ---------------------------------------------------------------------
  // Global replacement of a literal pattern by ''
  // ---------------------------------------------------------------------

  /**
   * `s.replace(/pat/g, '')` for a pattern without regular-expression
   * metacharacters: scanning from the left, every match is deleted and the
   * scan resumes after it, so matches never overlap.
   */
  function RemoveAll(s: string, pat: string): (r: string)
    requires pat != []
    ensures |r| <= |s|
    decreases |s|
  {
    if |s| < |pat| then s
    else if s[..|pat|] == pat then RemoveAll(s[|pat|..], pat)
    else [s[0]] + RemoveAll(s[1..], pat)
  }

  /** Removing a pattern that does not occur leaves the string as it was. */
  lemma {:induction false} RemoveAllAbsent(s: string, pat: string)
    requires pat != [] && !Includes(s, pat)
    ensures RemoveAll(s, pat) == s
    decreases |s|
  {
    if |s| >= |pat| {
      assert s[0..|pat|] == s[..|pat|];
      assert !Includes(s[1..], pat) by {
        forall i, j | 0 <= i <= j <= |s[1..]|
          ensures s[1..][i..j] != pat
        {
          assert s[1..][i..j] == s[i + 1..j + 1];
        }
      }
      RemoveAllAbsent(s[1..], pat);
      assert s == [s[0]] + s[1..];
    }
  }

  /** No match can start inside a prefix that lacks the pattern's first character. */
  lemma {:induction false} RemoveAllSkipsPrefix(a: string, b: string, pat: string)
    requires pat != [] && pat[0] !in a
    ensures RemoveAll(a + b, pat) == a + RemoveAll(b, pat)
    decreases |a|
  {
    if a != [] {
      var s := a + b;
      assert s[0] == a[0] != pat[0];
      assert s[1..] == a[1..] + b;
      RemoveAllSkipsPrefix(a[1..], b, pat);
      assert a == [a[0]] + a[1..];
      if |s| >= |pat| {
        assert s[..|pat|][0] != pat[0];
        calc {
          RemoveAll(s, pat);
          [s[0]] + RemoveAll(s[1..], pat);
          [a[0]] + (a[1..] + RemoveAll(b, pat));
          ([a[0]] + a[1..]) + RemoveAll(b, pat);
        }
      } else {
        assert RemoveAll(s, pat) == s;
        assert RemoveAll(b, pat) == b;
      }
    } else {
      assert a + b == b;
    }
  }

  /** Where no match starts at the head, the head is kept and the scan moves one character on. */
  lemma RemoveAllKeepsHead(s: string, pat: string)
    requires pat != [] && s != []
    requires |s| < |pat| || s[..|pat|] != pat
    ensures RemoveAll(s, pat) == [s[0]] + RemoveAll(s[1..], pat)
  {
    if |s| < |pat| {
      assert s == [s[0]] + s[1..];
    }
  }

  /** A match at the head is deleted and the scan resumes after it. */
  lemma RemoveAllDropsHead(pat: string, b: string)
    requires pat != []
    ensures RemoveAll(pat + b, pat) == RemoveAll(b, pat)
  {
    assert (pat + b)[..|pat|] == pat;
    assert (pat + b)[|pat|..] == b;
  }

  // ---------------------------------------------------------------------
  // split and join on one character
  // ---------------------------------------------------------------------

  /** `parts.join(sep)`. */
  function Join(parts: seq<string>, sep: char): string {
    if |parts| == 0 then []
    else if |parts| == 1 then parts[0]
    else parts[0] + [sep] + Join(parts[1..], sep)
  }

  /**
   * `s.split(sep)` for a one-character separator: the maximal runs between
   * separators, including empty ones at either end, so there is always at
   * least one segment.
   */
  function Split(s: string, sep: char): (parts: seq<string>)
    ensures |parts| >= 1
    ensures forall k :: 0 <= k < |parts| ==> sep !in parts[k]
    ensures Join(parts, sep) == s
    decreases |s|
  {
    var i := IndexOf(s, sep);
    if i < 0 then [s]
    else
      var rest := Split(s[i + 1..], sep);
      var parts := [s[..i]] + rest;
      assert parts[0] == s[..i] && sep !in s[..i];
      assert parts[1..] == rest;
      assert Join(parts, sep) == s[..i] + [sep] + Join(rest, sep);
      assert s == s[..i] + [sep] + s[i + 1..];
      parts
  }

  /** A string without the separator splits into itself. */
  lemma SplitWithoutSeparator(s: string, sep: char)
    requires sep !in s
    ensures Split(s, sep) == [s]
  {
  }

  /** Splitting `a + [sep] + b`, where `a` has no separator, yields `a` first. */
  lemma SplitAfterFirst(a: string, sep: char, b: string)
    requires sep !in a
    ensures Split(a + [sep] + b, sep) == [a] + Split(b, sep)
  {
    var s := a + [sep] + b;
    assert s[|a|] == sep;
    assert s[..|a|] == a;
    assert s[|a| + 1..] == b;
    assert IndexOf(s, sep) == |a|;
  }

  // ---------------------------------------------------------------------
  // toLowerCase
  // ---------------------------------------------------------------------

  /** Lower-cases an ASCII capital letter and leaves every other character alone. */
  function LowerChar(c: char): char {
    if 'A' <= c <= 'Z' then (c as int + 32) as char else c
  }

  /** `s.toLowerCase()`, restricted to the ASCII letters. */
  function ToLower(s: string): (r: string)
    ensures |r| == |s|
    ensures forall i :: 0 <= i < |s| ==> r[i] == LowerChar(s[i])
  {
    seq(|s|, i requires 0 <= i < |s| => LowerChar(s[i]))
  }
}
