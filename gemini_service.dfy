/**
 * The response-shaping layer in front of the generative-model client:
 * extraction of a JSON payload from free-form model output
 * (`cleanJsonString`), the result and fallback policy of each of the four
 * fetchers, and the interpolation of the player name into its prompt.
 *
 * The remote call is not modelled: each fetcher receives the call's outcome
 * as a `Completion`. `JSON.parse` is not modelled either: each fetcher
 * receives it as a function from the cleaned text to an optional payload,
 * and the payload is used as it comes, as the source's `as` casts do.
 */
module GeminiService {
  import opened Wrappers
  import opened JsText
  import opened Types

  // =====================================================================
  // cleanJsonString
  // =====================================================================

  const Fence: string := "```"
  const JsonFence: string := "```json"

  predicate IsOpener(c: char) { c == '{' || c == '[' }
  predicate IsCloser(c: char) { c == '}' || c == ']' }

  predicate NoOpener(s: string) { forall i :: 0 <= i < |s| ==> !IsOpener(s[i]) }
  predicate NoCloser(s: string) { forall i :: 0 <= i < |s| ==> !IsCloser(s[i]) }

  /** The two global replacements: every "```json", then every "```". */
  function Defence(text: string): (r: string)
    ensures |r| <= |text|
    ensures !Includes(r, Fence)
  {
    FenceRemovalLeavesNoFence(RemoveAll(text, JsonFence));
    RemoveAll(RemoveAll(text, JsonFence), Fence)
  }

  /** The value `clean` is first given: the de-fenced text, trimmed. */
  function Prepared(text: string): (r: string)
    ensures |r| <= |text|
    ensures r == [] || (!IsWhitespace(r[0]) && !IsWhitespace(r[|r| - 1]))
  {
    SliceLength(Trim(Defence(text)), Defence(text));
    Trim(Defence(text))
  }

  /** `start`: the index of the first `{` or `[`, whichever comes first, or -1. */
  function FirstOpener(clean: string): (start: int)
    ensures -1 <= start < |clean|
    ensures start == -1 <==> NoOpener(clean)
    ensures 0 <= start ==> IsOpener(clean[start]) && NoOpener(clean[..start])
  {
    var firstBrace := IndexOf(clean, '{');
    var firstBracket := IndexOf(clean, '[');
    var start := if firstBrace != -1 && (firstBracket == -1 || firstBrace < firstBracket) then firstBrace else firstBracket;
    NotInPrefix(clean, '{', firstBrace, start);
    NotInPrefix(clean, '[', firstBracket, start);
    start
  }

  /** A character whose first index is `first` (or absent) is absent before `upTo <= first`. */
  lemma NotInPrefix(s: string, c: char, first: int, upTo: int)
    requires -1 <= first < |s| && -1 <= upTo < |s|
    requires first == -1 <==> c !in s
    requires 0 <= first ==> c !in s[..first]
    requires first == -1 || upTo <= first
    ensures 0 <= upTo ==> c !in s[..upTo]
  {
    if 0 <= first && 0 <= upTo {
      assert s[..upTo] == s[..first][..upTo];
    }
  }

  /** `end`: the index of the last `}` or `]`, whichever comes last, or -1. */
  function LastCloser(clean: string): (end: int)
    ensures -1 <= end < |clean|
    ensures end == -1 <==> NoCloser(clean)
    ensures 0 <= end ==> IsCloser(clean[end]) && NoCloser(clean[end + 1..])
  {
    var lastBrace := LastIndexOf(clean, '}');
    var lastBracket := LastIndexOf(clean, ']');
    var end := if lastBrace != -1 && (lastBracket == -1 || lastBrace > lastBracket) then lastBrace else lastBracket;
    NotInSuffix(clean, '}', lastBrace, end);
    NotInSuffix(clean, ']', lastBracket, end);
    end
  }

  /** A character whose last index is `last` (or absent) is absent after `from >= last`. */
  lemma NotInSuffix(s: string, c: char, last: int, from: int)
    requires -1 <= last < |s| && -1 <= from < |s|
    requires last == -1 <==> c !in s
    requires 0 <= last ==> c !in s[last + 1..]
    requires last <= from
    ensures 0 <= from ==> c !in s[from + 1..]
  {
    if 0 <= last {
      assert s[from + 1..] == s[last + 1..][from - last..];
    }
  }

  /**
   * The selection step applied to the prepared text `clean`: when both an
   * opener and a closer exist, `clean.substring(start, end + 1)`, otherwise
   * `clean` itself. Because `substring` swaps arguments given out of order,
   * a closer before the opener selects the text strictly between the two.
   */
  function Extract(clean: string): (r: string)
    ensures FirstOpener(clean) < 0 || LastCloser(clean) < 0 ==> r == clean
    ensures 0 <= FirstOpener(clean) <= LastCloser(clean) ==> r == clean[FirstOpener(clean)..LastCloser(clean) + 1]
    ensures 0 <= LastCloser(clean) < FirstOpener(clean) ==> r == clean[LastCloser(clean) + 1..FirstOpener(clean)]
  {
    var start := FirstOpener(clean);
    var end := LastCloser(clean);
    if start >= 0 && end >= 0 then
      if start <= end then
        SubstringInOrder(clean, start, end + 1);
        Substring(clean, start, end + 1)
      else
        SubstringSwapped(clean, start, end + 1);
        Substring(clean, start, end + 1)
    else clean
  }

  /** The selection is a slice of the text it selects from. */
  lemma ExtractIsSlice(clean: string)
    ensures IsSliceOf(Extract(clean), clean)
  {
    if FirstOpener(clean) < 0 || LastCloser(clean) < 0 {
      SliceAt(Extract(clean), clean, 0, |clean|);
    } else {
      SubstringIsSlice(clean, FirstOpener(clean), LastCloser(clean) + 1);
    }
  }

  /**
   * `cleanJsonString`: strip the fences, trim, then select. The output never
   * contains "```" and is never longer than the input.
   */
  function CleanJsonString(text: string): (r: string)
    ensures |r| <= |text|
  {
    ExtractIsSlice(Prepared(text));
    PreparedSliceHasNoFence(Extract(Prepared(text)), text);
    Extract(Prepared(text))
  }

  /** The output of `cleanJsonString` never contains "```". */
  lemma CleanHasNoFence(text: string)
    ensures !Includes(CleanJsonString(text), Fence)
  {
    ExtractIsSlice(Prepared(text));
    PreparedSliceHasNoFence(Extract(Prepared(text)), text);
  }

  /** Every slice of the prepared text is fence-free and no longer than the raw text. */
  lemma PreparedSliceHasNoFence(r: string, text: string)
    requires IsSliceOf(r, Prepared(text))
    ensures !Includes(r, Fence) && |r| <= |text|
  {
    var d := Defence(text);
    FenceRemovalLeavesNoFence(RemoveAll(text, JsonFence));
    SliceTransitive(r, Prepared(text), d);
    SliceExcludes(r, d, Fence);
    SliceLength(r, d);
  }

  /** Two backticks at the head of a string. */
  predicate TwoTicks(s: string) {
    |s| >= 2 && s[0] == '`' && s[1] == '`'
  }

  /** Removing fences never puts a backtick at the head where there was none. */
  lemma LeadingTickKept(t: string)
    ensures |RemoveAll(t, Fence)| >= 1 && RemoveAll(t, Fence)[0] == '`' ==> |t| >= 1 && t[0] == '`'
  {
  }

  /** Removing fences never puts two backticks at the head where there were not two. */
  lemma LeadingTicksKept(t: string)
    ensures TwoTicks(RemoveAll(t, Fence)) ==> TwoTicks(t)
  {
    if |t| >= 3 && t[..3] != Fence {
      LeadingTickKept(t[1..]);
    }
  }

  /**
   * After one left-to-right pass that deletes every "```", no "```" is left:
   * every run of backticks has been cut down to its length modulo three.
   */
  lemma {:induction false} FenceRemovalLeavesNoFence(s: string)
    ensures !Includes(RemoveAll(s, Fence), Fence)
    decreases |s|
  {
    if |s| < 3 {
      assert RemoveAll(s, Fence) == s;
    } else if s[..3] == Fence {
      FenceRemovalLeavesNoFence(s[3..]);
    } else {
      var rest := RemoveAll(s[1..], Fence);
      FenceRemovalLeavesNoFence(s[1..]);
      LeadingTicksKept(s[1..]);
      assert s[..3] == [s[0], s[1], s[2]];
      NoFenceAfterHead(s[0], rest);
    }
  }

  /** Putting one character before a fence-free string makes a fence only when the string starts with two backticks. */
  lemma NoFenceAfterHead(x: char, rest: string)
    requires !Includes(rest, Fence)
    requires TwoTicks(rest) ==> x != '`'
    ensures !Includes([x] + rest, Fence)
  {
    var r := [x] + rest;
    assert r[0] == x;
    forall i, j | 0 <= i <= j <= |r|
      ensures r[i..j] != Fence
    {
      if 1 <= i {
        assert r[i..j] == rest[i - 1..j - 1];
      } else if j == 3 {
        assert r[1] == rest[0] && r[2] == rest[1];
        assert r[i..j][0] == r[0] && r[i..j][1] == r[1] && r[i..j][2] == r[2];
      }
    }
  }

  /** "```json" starts with "```", so a string free of the latter is free of the former. */
  lemma NoJsonFenceWithoutFence(s: string)
    requires !Includes(s, Fence)
    ensures !Includes(s, JsonFence)
  {
    forall i, j | 0 <= i <= j <= |s| && j - i == |JsonFence|
      ensures s[i..j] != JsonFence
    {
      assert s[i..i + 3] != Fence;
      assert s[i..j][..3] == s[i..i + 3];
    }
  }

  /** A fence-free string is left unchanged by both replacements. */
  lemma DefenceUnchanged(s: string)
    requires !Includes(s, Fence)
    ensures Defence(s) == s
  {
    NoJsonFenceWithoutFence(s);
    RemoveAllAbsent(s, JsonFence);
    RemoveAllAbsent(s, Fence);
  }

  /** Without an opener or without a closer, the output is the de-fenced, trimmed text. */
  lemma CleanWithoutBrackets(text: string)
    requires NoOpener(Prepared(text)) || NoCloser(Prepared(text))
    ensures CleanJsonString(text) == Prepared(text)
  {
  }

  /**
   * When the first opener is at or before the last closer, the selection
   * starts with `{` or `[` and ends with `}` or `]`.
   */
  lemma ExtractBracketed(c: string)
    requires 0 <= FirstOpener(c) <= LastCloser(c)
    ensures Extract(c) == c[FirstOpener(c)..LastCloser(c) + 1]
    ensures var r := Extract(c); r != [] && IsOpener(r[0]) && IsCloser(r[|r| - 1])
  {
    var start, end := FirstOpener(c), LastCloser(c);
    assert Extract(c) == c[start..end + 1];
    SliceEnds(c, start, end);
  }

  /** A non-empty inclusive slice starts and ends with the characters at its bounds. */
  lemma SliceEnds(c: string, start: int, end: int)
    requires 0 <= start <= end < |c|
    ensures var r := c[start..end + 1]; r != [] && r[0] == c[start] && r[|r| - 1] == c[end]
  {
  }

  /**
   * When the first opener comes after the last closer, the selection lies
   * strictly between the two and holds no brace or bracket at all.
   */
  lemma ExtractReversed(c: string)
    requires 0 <= LastCloser(c) < FirstOpener(c)
    ensures NoOpener(Extract(c)) && NoCloser(Extract(c))
  {
    var start, end := FirstOpener(c), LastCloser(c);
    var r := c[end + 1..start];
    forall i | 0 <= i < |r|
      ensures !IsOpener(r[i]) && !IsCloser(r[i])
    {
      assert r[i] == c[..start][end + 1 + i];
      assert r[i] == c[end + 1..][i];
    }
  }

  /** `y` starts with an opener, ends with a closer and holds no "```". */
  predicate Bracketed(y: string) {
    y != [] && IsOpener(y[0]) && IsCloser(y[|y| - 1]) && !Includes(y, Fence)
  }

  /** A bracketed string is its own clean form. */
  lemma CleanOfBracketed(y: string)
    requires Bracketed(y)
    ensures CleanJsonString(y) == y
  {
    DefenceUnchanged(y);
    TrimUnchanged(y);
    FirstOpenerIs(y, 0);
    LastCloserIs(y, |y| - 1);
  }

  /** The bracketed case of `cleanJsonString`. */
  lemma CleanBracketed(text: string)
    requires 0 <= FirstOpener(Prepared(text)) <= LastCloser(Prepared(text))
    ensures var c := Prepared(text);
            CleanJsonString(text) == c[FirstOpener(c)..LastCloser(c) + 1]
    ensures var r := CleanJsonString(text);
            r != [] && IsOpener(r[0]) && IsCloser(r[|r| - 1])
  {
    var c := Prepared(text);
    ExtractBracketed(c);
    assert CleanJsonString(text) == Extract(c);
  }

  /** The swapped case of `cleanJsonString`. */
  lemma CleanReversed(text: string)
    requires 0 <= LastCloser(Prepared(text)) < FirstOpener(Prepared(text))
    ensures var c := Prepared(text);
            CleanJsonString(text) == c[LastCloser(c) + 1..FirstOpener(c)]
    ensures NoOpener(CleanJsonString(text)) && NoCloser(CleanJsonString(text))
  {
    ExtractReversed(Prepared(text));
  }

  /** In the bracketed case the output is bracketed. */
  lemma CleanIsBracketed(text: string)
    requires 0 <= FirstOpener(Prepared(text)) <= LastCloser(Prepared(text))
    ensures Bracketed(CleanJsonString(text))
  {
    CleanBracketed(text);
    CleanHasNoFence(text);
  }

  /** Cleaning a bracketed result again changes nothing. */
  lemma CleanIdempotent(text: string)
    requires 0 <= FirstOpener(Prepared(text)) <= LastCloser(Prepared(text))
    ensures CleanJsonString(CleanJsonString(text)) == CleanJsonString(text)
  {
    CleanIsBracketed(text);
    CleanOfBracketed(CleanJsonString(text));
  }

  /** Stripping the fences beforehand does not change the output. */
  lemma CleanIgnoresFences(text: string)
    ensures CleanJsonString(Defence(text)) == CleanJsonString(text)
  {
    FenceRemovalLeavesNoFence(RemoveAll(text, JsonFence));
    DefenceUnchanged(Defence(text));
  }

  /** A text without a backtick is left unchanged by both replacements. */
  lemma DefenceWithoutTicks(t: string)
    requires '`' !in t
    ensures Defence(t) == t
  {
    assert t + [] == t;
    RemoveAllSkipsPrefix(t, [], JsonFence);
    RemoveAllSkipsPrefix(t, [], Fence);
  }

  /**
   * A closing fence followed by prose that does not start with "json" holds
   * no "```json" to remove.
   */
  lemma ClosingFenceKept(c: string)
    requires '`' !in c
    requires c == [] || c[0] != 'j'
    ensures RemoveAll(Fence + c, JsonFence) == Fence + c
  {
    var f := Fence + c;
    assert |f| >= |JsonFence| ==> f[..|JsonFence|][3] != JsonFence[3];
    RemoveAllKeepsHead(f, JsonFence);
    assert f[1..] == "``" + c;
    assert |f[1..]| >= |JsonFence| ==> f[1..][..|JsonFence|][2] != JsonFence[2];
    RemoveAllKeepsHead(f[1..], JsonFence);
    assert f[2..] == "`" + c;
    assert |f[2..]| >= |JsonFence| ==> f[2..][..|JsonFence|][1] != JsonFence[1];
    assert f[2..][1..] == c;
    RemoveAllKeepsHead(f[2..], JsonFence);
    assert c + [] == c;
    RemoveAllSkipsPrefix(c, [], JsonFence);
    assert f == [f[0]] + ([f[1]] + ([f[2]] + c));
  }

  /**
   * The usual shape of a fenced answer, prose `a`, a "```json" fence, the
   * payload `b`, a closing "```" and prose `c`, loses exactly its two fences.
   */
  lemma DefenceOfFencedBlock(a: string, b: string, c: string)
    requires '`' !in a && '`' !in b && '`' !in c
    requires c == [] || c[0] != 'j'
    ensures Defence(a + JsonFence + b + Fence + c) == a + b + c
  {
    JsonFenceRemoved(a, b, c);
    FenceRemoved(a + b, c);
  }

  /** The first replacement deletes the opening "```json" and keeps the closing "```". */
  lemma JsonFenceRemoved(a: string, b: string, c: string)
    requires '`' !in a && '`' !in b && '`' !in c
    requires c == [] || c[0] != 'j'
    ensures RemoveAll(a + JsonFence + b + Fence + c, JsonFence) == (a + b) + (Fence + c)
  {
    var f := Fence + c;
    assert a + JsonFence + b + Fence + c == a + (JsonFence + (b + f));
    RemoveAllSkipsPrefix(a, JsonFence + (b + f), JsonFence);
    RemoveAllDropsHead(JsonFence, b + f);
    RemoveAllSkipsPrefix(b, f, JsonFence);
    ClosingFenceKept(c);
    assert a + (b + f) == (a + b) + f;
  }

  /** The second replacement deletes the closing "```". */
  lemma FenceRemoved(a: string, c: string)
    requires '`' !in a && '`' !in c
    ensures RemoveAll(a + (Fence + c), Fence) == a + c
  {
    RemoveAllSkipsPrefix(a, Fence + c, Fence);
    RemoveAllDropsHead(Fence, c);
    assert c + [] == c;
    RemoveAllSkipsPrefix(c, [], Fence);
  }

  /** A text without backticks and without surrounding whitespace is already prepared. */
  lemma PreparedUnchanged(t: string)
    requires '`' !in t
    requires t == [] || (!IsWhitespace(t[0]) && !IsWhitespace(t[|t| - 1]))
    ensures Prepared(t) == t
  {
    DefenceWithoutTicks(t);
    TrimUnchanged(t);
  }

  /** The index of the first opener is what the selection step computes. */
  lemma FirstOpenerIs(c: string, k: int)
    requires 0 <= k < |c| && IsOpener(c[k]) && NoOpener(c[..k])
    ensures FirstOpener(c) == k
  {
  }

  /** The index of the last closer is what the selection step computes. */
  lemma LastCloserIs(c: string, k: int)
    requires 0 <= k < |c| && IsCloser(c[k]) && NoCloser(c[k + 1..])
    ensures LastCloser(c) == k
  {
  }

  /**
   * The three parts of a fenced answer `a` "```json" `b` "```" `c` that the
   * lemmas below handle: none holds a backtick, and `c` does not start with
   * "j" (which could complete a second "```json").
   */
  predicate FencedParts(a: string, b: string, c: string) {
    && '`' !in a && '`' !in b && '`' !in c
    && (c == [] || c[0] != 'j')
  }

  /** Such an answer is prepared to the trim of the concatenation of its three parts. */
  lemma PreparedFencedBlock(a: string, b: string, c: string)
    requires FencedParts(a, b, c)
    ensures Prepared(a + JsonFence + b + Fence + c) == Trim(a + b + c)
  {
    DefenceOfFencedBlock(a, b, c);
  }

  /** `i` is the first opener of `p`, `j` is its last closer, and `i <= j`. */
  predicate BracketsAt(p: string, i: int, j: int) {
    0 <= i <= j < |p| && IsOpener(p[i]) && NoOpener(p[..i]) && IsCloser(p[j]) && NoCloser(p[j + 1..])
  }

  /** With the brackets at `i <= j`, the selection is the inclusive slice between them. */
  lemma ExtractAt(p: string, i: int, j: int)
    requires BracketsAt(p, i, j)
    ensures Extract(p) == p[i..j + 1]
  {
    FirstOpenerIs(p, i);
    LastCloserIs(p, j);
  }

  /** `j` is the last closer of `p`, `i` is its first opener, and `j < i`. */
  predicate BracketsSwappedAt(p: string, i: int, j: int) {
    0 <= j < i < |p| && IsOpener(p[i]) && NoOpener(p[..i]) && IsCloser(p[j]) && NoCloser(p[j + 1..])
  }

  /** With the closer before the opener, the selection is the text strictly between them. */
  lemma ExtractSwappedAt(p: string, i: int, j: int)
    requires BracketsSwappedAt(p, i, j)
    ensures Extract(p) == p[j + 1..i]
  {
    FirstOpenerIs(p, i);
    LastCloserIs(p, j);
  }

  /** Brackets of `d` outside its blank ends `d[..k]` and `d[k + |r|..]` are brackets of the middle `r`. */
  lemma BracketsBetweenBlanks(d: string, k: nat, r: string, i: int, j: int)
    requires k + |r| <= |d| && r == d[k..k + |r|] && Blank(d[..k]) && Blank(d[k + |r|..]) && BracketsAt(d, i, j)
    ensures k <= i && j < k + |r|
    ensures BracketsAt(r, i - k, j - k) && r[i - k..j - k + 1] == d[i..j + 1]
  {
    var n := |r|;
    var pre, post := d[..k], d[k + n..];
    forall x | 0 <= x < k
      ensures IsWhitespace(d[x])
    {
      assert d[x] == pre[x];
    }
    forall x | k + n <= x < |d|
      ensures IsWhitespace(d[x])
    {
      assert d[x] == post[x - k - n];
    }
    assert k <= i && j < k + n;
    var before, after := r[..i - k], r[j - k + 1..];
    forall x | 0 <= x < |before|
      ensures !IsOpener(before[x])
    {
      assert before[x] == d[k + x];
    }
    forall x | 0 <= x < |after|
      ensures !IsCloser(after[x])
    {
      assert after[x] == d[j + 1 + x];
    }
    var mid := r[i - k..j - k + 1];
    forall x | 0 <= x < |mid|
      ensures mid[x] == d[i + x]
    {
    }
    assert mid == d[i..j + 1];
  }

  /**
   * Cleaning a fenced answer whose de-fenced text has its brackets at `i`
   * and `j` selects exactly the inclusive slice between them.
   */
  lemma CleanOfFencedBlock(a: string, b: string, c: string, i: int, j: int)
    requires FencedParts(a, b, c) && BracketsAt(a + b + c, i, j)
    ensures CleanJsonString(a + JsonFence + b + Fence + c) == (a + b + c)[i..j + 1]
  {
    CleanFencedBlockIsExtract(a, b, c);
    ExtractOfTrimmed(a + b + c, i, j);
  }

  /** Selecting from the trim of `d` with its brackets at `i <= j` gives the inclusive slice between them. */
  lemma ExtractOfTrimmed(d: string, i: int, j: int)
    requires BracketsAt(d, i, j)
    ensures Extract(Trim(d)) == d[i..j + 1]
  {
    TrimRemovesEnds(d);
    ExtractBetweenBlanks(d, SkipBlanks(d, 0), Trim(d), i, j);
  }

  /** Selecting from the middle `r` of `d`, between blank ends, gives `d`'s inclusive slice between its brackets. */
  lemma ExtractBetweenBlanks(d: string, k: nat, r: string, i: int, j: int)
    requires k + |r| <= |d| && r == d[k..k + |r|] && Blank(d[..k]) && Blank(d[k + |r|..]) && BracketsAt(d, i, j)
    ensures Extract(r) == d[i..j + 1]
  {
    BracketsBetweenBlanks(d, k, r, i, j);
    var i0, j0 := i - k, j - k;
    ExtractAt(r, i0, j0);
  }

  /** Cleaning such an answer selects from the trim of its three parts. */
  lemma CleanFencedBlockIsExtract(a: string, b: string, c: string)
    requires FencedParts(a, b, c)
    ensures CleanJsonString(a + JsonFence + b + Fence + c) == Extract(Trim(a + b + c))
  {
    PreparedFencedBlock(a, b, c);
  }

  /** The pattern of a fenced answer with prose around it. */
  lemma CleanFencedExample()
    ensures CleanJsonString("Here you go:\n```json\n{\"a\":1}\n```\nThanks") == "{\"a\":1}"
  {
    FencedExampleCleaned();
    FencedExampleAssembled();
    FencedExampleSelected();
  }

  lemma FencedExampleCleaned()
    ensures CleanJsonString("Here you go:\n" + JsonFence + "\n{\"a\":1}\n" + Fence + "\nThanks")
         == ("Here you go:\n" + "\n{\"a\":1}\n" + "\nThanks")[14..21]
  {
    CleanOfFencedBlock("Here you go:\n", "\n{\"a\":1}\n", "\nThanks", 14, 20);
  }

  lemma FencedExampleAssembled()
    ensures "Here you go:\n" + JsonFence + "\n{\"a\":1}\n" + Fence + "\nThanks" == "Here you go:\n```json\n{\"a\":1}\n```\nThanks"
  {
  }

  lemma FencedExampleSelected()
    ensures ("Here you go:\n" + "\n{\"a\":1}\n" + "\nThanks")[14..21] == "{\"a\":1}"
  {
  }

  /** A reply that is nothing but the fenced block, whose de-fenced text starts and ends with a newline. */
  lemma CleanBareFenceExample()
    ensures CleanJsonString("```json\n{}\n```") == "{}"
  {
    BareFenceCleaned();
    BareFenceAssembled();
    BareFenceSelected();
  }

  lemma BareFenceCleaned()
    ensures CleanJsonString("" + JsonFence + "\n{}\n" + Fence + "") == ("" + "\n{}\n" + "")[1..3]
  {
    CleanOfFencedBlock("", "\n{}\n", "", 1, 2);
  }

  lemma BareFenceSelected()
    ensures ("" + "\n{}\n" + "")[1..3] == "{}"
  {
  }

  lemma BareFenceAssembled()
    ensures "" + JsonFence + "\n{}\n" + Fence + "" == "```json\n{}\n```"
  {
  }

  /** With the closer before the opener, the text between them comes out. */
  lemma CleanSwappedExample()
    ensures CleanJsonString("} x {") == " x "
  {
    PreparedUnchanged("} x {");
    SwappedExampleSelected();
  }

  lemma SwappedExampleSelected()
    ensures Extract("} x {") == " x "
  {
    assert "} x {" == "}" + " x " + "{";
    ExtractBetweenSwapped(" x ");
  }

  /** A bracket-free text between a closer and a later opener is what the selection keeps. */
  lemma ExtractBetweenSwapped(m: string)
    requires NoOpener(m) && NoCloser(m)
    ensures Extract("}" + m + "{") == m
  {
    var p := "}" + m + "{";
    assert p[..|m| + 1] == "}" + m;
    assert p[1..] == m + "{";
    assert p[1..|m| + 1] == m;
    ExtractSwappedAt(p, |m| + 1, 0);
  }

  // =====================================================================
  // The fetchers
  // =====================================================================

  /** What a `generateContent` call produced: a rejection, or a response whose text may be absent. */
  datatype Completion =
    | TransportFailure(reason: string)
    | Completed(text: Option<string>, groundingChunks: Option<seq<GroundingChunk>>)

  /** The call resolved with non-empty text. */
  predicate HasText(c: Completion) {
    c.Completed? && Truthy(c.text)
  }

  const NoNewsText: string := "No news available at the moment."
  const NewsFailureMessage: string := "Failed to fetch latest cricket news."
  const EmptyProfileMessage: string := "Empty response from AI"
  const InvalidProfileMessage: string := "Could not generate a valid profile for this player."

  /** `fetchCricketNews`: the narrative text and grounding chunks, defaulted; any rejection becomes one message. */
  function FetchCricketNews(c: Completion): (r: Result<NewsResponse, string>)
    ensures r.Failure? <==> c.TransportFailure?
    ensures r.Failure? ==> r.error == NewsFailureMessage
    ensures r.Success? ==> r.value.text != []
    ensures r.Success? ==> r.value.text == if HasText(c) then c.text.value else NoNewsText
    ensures r.Success? ==> r.value.groundingChunks == if c.groundingChunks.Some? then c.groundingChunks.value else []
  {
    match c
    case TransportFailure(_) => Failure(NewsFailureMessage)
    case Completed(text, chunks) =>
      Success(NewsResponse(Or(text, NoNewsText), if chunks.Some? then chunks.value else []))
  }

  /** A JSON value, as far as JavaScript truthiness is concerned; `Absent` is `undefined`. */
  datatype JsonValue = Absent | Null | Bool(b: bool) | Number(n: int) | Str(s: string) | Structured

  /** Objects and arrays are truthy; `false`, `0`, `""`, `null` and `undefined` are not. */
  predicate IsTruthy(v: JsonValue) {
    match v
    case Bool(b) => b
    case Number(n) => n != 0
    case Str(s) => s != []
    case Structured => true
    case _ => false
  }

  /** A parsed profile object: its `error` property and the rest, taken as a profile by the cast. */
  datatype ProfilePayload = ProfilePayload(error: JsonValue, profile: PlayerProfileData)

  /** The payload `JSON.parse` gives for the cleaned text of `c`, if `c` has text. */
  function ParsedPayload<T>(c: Completion, parse: string -> Option<T>): Option<T> {
    if HasText(c) then parse(CleanJsonString(c.text.value)) else None
  }

  /**
   * `fetchPlayerProfile`: a rejection of the call is rethrown as it is;
   * empty text fails with its own message; a parse failure and a payload
   * with a truthy `error` both fail with one generic message, because the
   * `throw` for the latter is caught by the same handler. Nothing checks
   * the payload's `name` or shape.
   */
  function FetchPlayerProfile(c: Completion, parse: string -> Option<ProfilePayload>): (r: Result<PlayerProfileData, string>)
    ensures c.TransportFailure? ==> r == Failure(c.reason)
    ensures c.Completed? && !HasText(c) ==> r == Failure(EmptyProfileMessage)
    ensures HasText(c) && r.Failure? ==> r.error == InvalidProfileMessage
    ensures r.Success? <==> ParsedPayload(c, parse).Some? && !IsTruthy(ParsedPayload(c, parse).value.error)
    ensures r.Success? ==> r.value == ParsedPayload(c, parse).value.profile
  {
    match c
    case TransportFailure(reason) => Failure(reason)
    case Completed(text, _) =>
      if !Truthy(text) then Failure(EmptyProfileMessage)
      else
        match parse(CleanJsonString(text.value))
        case None => Failure(InvalidProfileMessage)
        case Some(data) =>
          if IsTruthy(data.error) then Failure(InvalidProfileMessage) else Success(data.profile)
  }

  /** The not-found sentinel's own message is discarded in favour of the generic one. */
  lemma SentinelMessageDiscarded(c: Completion, parse: string -> Option<ProfilePayload>, p: PlayerProfileData)
    requires HasText(c) && ParsedPayload(c, parse) == Some(ProfilePayload(Str("Player not found"), p))
    ensures FetchPlayerProfile(c, parse) == Failure(InvalidProfileMessage)
  {
    assert IsTruthy(Str("Player not found"));
  }

  /** A payload with a falsy `error` is returned as the profile even when its `name` is empty. */
  lemma NameNotChecked(c: Completion, parse: string -> Option<ProfilePayload>, p: PlayerProfileData)
    requires HasText(c) && ParsedPayload(c, parse) == Some(ProfilePayload(Absent, p)) && p.name == []
    ensures FetchPlayerProfile(c, parse) == Success(p)
  {
  }

  /** The match buckets a failure degrades to. */
  const EmptyMatchData: MatchData := MatchData([], [], [])

  /** `fetchMatchData`: the parsed value unchanged, or three empty buckets on any failure. */
  function FetchMatchData(c: Completion, parse: string -> Option<MatchData>): (r: MatchData)
    ensures r == if ParsedPayload(c, parse).Some? then ParsedPayload(c, parse).value else EmptyMatchData
  {
    match c
    case TransportFailure(_) => EmptyMatchData
    case Completed(text, _) =>
      if !Truthy(text) then EmptyMatchData
      else
        match parse(CleanJsonString(text.value))
        case None => EmptyMatchData
        case Some(data) => data
  }

  /** `fetchStandings`: the parsed rows unchanged, or no rows on any failure. */
  function FetchStandings(c: Completion, parse: string -> Option<seq<TeamStanding>>): (r: seq<TeamStanding>)
    ensures r == if ParsedPayload(c, parse).Some? then ParsedPayload(c, parse).value else []
  {
    match c
    case TransportFailure(_) => []
    case Completed(text, _) =>
      if !Truthy(text) then []
      else
        match parse(CleanJsonString(text.value))
        case None => []
        case Some(rows) => rows
  }

  /** A failed parse of match data degrades to the three empty buckets, whatever the text was. */
  lemma MatchDataParseFailure(c: Completion, parse: string -> Option<MatchData>)
    requires c.Completed? && (forall t :: parse(t) == None)
    ensures FetchMatchData(c, parse) == EmptyMatchData
  {
  }

  // =====================================================================
  // The player prompt
  // =====================================================================

  /** The prompt text before the interpolated player name. */
  const PlayerPromptHead: string :=
    "\n" +
    "      Search for the detailed profile, career statistics (Batting: Matches, Runs, Avg, SR; Bowling: Matches, Wickets, Avg, Econ), and VERY RECENT form (last 3 months) of cricketer \""

  /** The prompt text after the interpolated player name. */
  const PlayerPromptTail: string :=
    "\".\n" +
    "      \n" +
    "      INSTRUCTIONS:\n" +
    "      1. Output ONLY raw valid JSON. Do NOT use markdown code blocks. Do NOT add any conversational text or apologies.\n" +
    "      2. If you absolutely cannot find the player, return a JSON object with a property \"error\": \"Player not found\".\n" +
    "      \n" +
    "      The JSON must match this structure:\n" +
    "      {\n" +
    "        \"name\": \"Full Name\",\n" +
    "        \"role\": \"Role\",\n" +
    "        \"country\": \"Country\",\n" +
    "        \"battingStyle\": \"Right/Left-hand bat\",\n" +
    "        \"bowlingStyle\": \"Style or None\",\n" +
    "        \"bio\": \"Short biography\",\n" +
    "        \"careerHighlights\": [\"highlight 1\", \"highlight 2\"],\n" +
    "        \"recentForm\": \"Summary of performance in last few series/matches\",\n" +
    "        \"majorTeams\": [\"Team A\", \"Team B\"],\n" +
    "        \"battingStats\": {\n" +
    "          \"matches\": \"100\", \"runs\": \"5000\", \"average\": \"50.00\", \"strikeRate\": \"85.0\"\n" +
    "        },\n" +
    "        \"bowlingStats\": {\n" +
    "          \"matches\": \"100\", \"wickets\": \"150\", \"average\": \"25.00\", \"economy\": \"4.5\", \"bestFigures\": \"5/20\"\n" +
    "        }\n" +
    "      }\n" +
    "    "

  /** The prompt for `fetchPlayerProfile`: the name is interpolated verbatim, without escaping. */
  function PlayerPrompt(playerName: string): (p: string)
    ensures |p| == |PlayerPromptHead| + |playerName| + |PlayerPromptTail|
    ensures p[..|PlayerPromptHead|] == PlayerPromptHead
    ensures p[|PlayerPromptHead|..|PlayerPromptHead| + |playerName|] == playerName
    ensures p[|PlayerPromptHead| + |playerName|..] == PlayerPromptTail
  {
    Interpolated(PlayerPromptHead, playerName, PlayerPromptTail);
    PlayerPromptHead + playerName + PlayerPromptTail
  }

  /** The three parts of `head + name + tail` can be read back by position. */
  lemma Interpolated(head: string, name: string, tail: string)
    ensures (head + name + tail)[..|head|] == head
    ensures (head + name + tail)[|head|..|head| + |name|] == name
    ensures (head + name + tail)[|head| + |name|..] == tail
  {
  }

  /** Different names give different prompts. */
  lemma PlayerPromptInjective(a: string, b: string)
    requires PlayerPrompt(a) == PlayerPrompt(b)
    ensures a == b
  {
  }
}
