/**
 * The news page: one load of the search-grounded news summary, the
 * paragraphs its text is shown as, and the list of source links taken
 * from its grounding chunks.
 */
module NewsFeed {
  import opened Wrappers
  import opened JsText
  import opened Types
  import opened GeminiService

  const LoadFailedMessage: string := "Unable to load live news. Please try again later."
  const DefaultSourceTitle: string := "Web Source"
  const NoSourcesNotice: string := "No direct source links returned."

  // ---------------------------------------------------------------------
  // Source links
  // ---------------------------------------------------------------------

  /** A rendered link: its target and its caption. */
  datatype SourceLink = SourceLink(uri: string, title: string)

  /** `chunk.web?.uri` is truthy. */
  predicate HasUri(chunk: GroundingChunk) {
    chunk.web.Some? && Truthy(chunk.web.value.uri)
  }

  /** `chunk.web.title || "Web Source"`. */
  function SourceTitle(web: WebSource): (t: string)
    ensures t != []
    ensures Truthy(web.title) ==> t == web.title.value
    ensures !Truthy(web.title) ==> t == DefaultSourceTitle
  {
    Or(web.title, DefaultSourceTitle)
  }

  /** The link a chunk with a URI renders as. */
  function LinkOf(chunk: GroundingChunk): (l: SourceLink)
    requires HasUri(chunk)
    ensures l.uri == chunk.web.value.uri.value && l.uri != []
    ensures l.title == SourceTitle(chunk.web.value)
  {
    SourceLink(chunk.web.value.uri.value, SourceTitle(chunk.web.value))
  }

  /** The links rendered for `chunks`: those with a URI, in order; the others render nothing. */
  function Sources(chunks: seq<GroundingChunk>): (r: seq<SourceLink>)
    ensures |r| <= |chunks|
    ensures forall k :: 0 <= k < |r| ==> r[k].uri != [] && r[k].title != []
    ensures (forall i :: 0 <= i < |chunks| ==> !HasUri(chunks[i])) ==> r == []
  {
    if chunks == [] then []
    else (if HasUri(chunks[0]) then [LinkOf(chunks[0])] else []) + Sources(chunks[1..])
  }

  /** The links of two runs of chunks are the links of each, in order. */
  lemma {:induction false} SourcesAppend(a: seq<GroundingChunk>, b: seq<GroundingChunk>)
    ensures Sources(a + b) == Sources(a) + Sources(b)
    decreases |a|
  {
    if a != [] {
      var h := if HasUri(a[0]) then [LinkOf(a[0])] else [];
      assert (a + b)[0] == a[0] && (a + b)[1..] == a[1..] + b;
      calc {
        Sources(a + b);
        h + Sources(a[1..] + b);
        { SourcesAppend(a[1..], b); }
        h + (Sources(a[1..]) + Sources(b));
        (h + Sources(a[1..])) + Sources(b);
        Sources(a) + Sources(b);
      }
    } else {
      assert a + b == b;
    }
  }

  /** One chunk renders one link exactly when it has a URI. */
  lemma SourcesOfOne(chunk: GroundingChunk)
    ensures Sources([chunk]) == if HasUri(chunk) then [LinkOf(chunk)] else []
  {
    assert [chunk][1..] == [];
  }

  /** Every chunk with a URI contributes its link, at its place among the others. */
  lemma SourcesKeepOrder(chunks: seq<GroundingChunk>, i: int)
    requires 0 <= i < |chunks| && HasUri(chunks[i])
    ensures Sources(chunks) == Sources(chunks[..i]) + [LinkOf(chunks[i])] + Sources(chunks[i + 1..])
  {
    var front, back := chunks[..i], chunks[i + 1..];
    assert chunks == front + ([chunks[i]] + back) by {
      assert chunks == chunks[..i] + chunks[i..];
      assert chunks[i..] == [chunks[i]] + back;
    }
    SourcesAround(front, chunks[i], back);
  }

  lemma SourcesAround(front: seq<GroundingChunk>, c: GroundingChunk, back: seq<GroundingChunk>)
    requires HasUri(c)
    ensures Sources(front + ([c] + back)) == Sources(front) + [LinkOf(c)] + Sources(back)
  {
    SourcesAppend(front, [c] + back);
    SourcesAppend([c], back);
    SourcesOfOne(c);
  }

  /** The sources panel: the placeholder, or a list (possibly with nothing in it). */
  datatype SourcesPanel = Placeholder(message: string) | Links(links: seq<SourceLink>)

  /** The placeholder shows only when there are no chunks at all. */
  function RenderSources(chunks: seq<GroundingChunk>): (p: SourcesPanel)
    ensures p.Placeholder? <==> chunks == []
    ensures p.Placeholder? ==> p.message == NoSourcesNotice
    ensures p.Links? ==> p.links == Sources(chunks)
  {
    if |chunks| > 0 then Links(Sources(chunks)) else Placeholder(NoSourcesNotice)
  }

  /** Chunks that all lack a URI give an empty list and no placeholder. */
  lemma NoUriNoPlaceholder(chunks: seq<GroundingChunk>)
    requires chunks != [] && forall i :: 0 <= i < |chunks| ==> !HasUri(chunks[i])
    ensures RenderSources(chunks) == Links([])
  {
  }

  // ---------------------------------------------------------------------
  // Paragraphs
  // ---------------------------------------------------------------------

  /**
   * The segments whose trim is non-empty, untrimmed and in order; by the
   * contract of `Trim` that is exactly the segments that are not blank.
   */
  function NonBlank(segments: seq<string>): (r: seq<string>)
    ensures |r| <= |segments|
    ensures forall k :: 0 <= k < |r| ==> !Blank(r[k])
  {
    if segments == [] then []
    else (if !Blank(segments[0]) then [segments[0]] else []) + NonBlank(segments[1..])
  }

  /** The paragraphs the news text renders as. */
  function Paragraphs(text: string): (r: seq<string>)
    ensures forall k :: 0 <= k < |r| ==> !Blank(r[k])
  {
    NonBlank(Split(text, '\n'))
  }

  /** Every segment kept is one of the segments. */
  lemma {:induction false} NonBlankFromSegments(segments: seq<string>)
    ensures forall k :: 0 <= k < |NonBlank(segments)| ==> NonBlank(segments)[k] in segments
    decreases |segments|
  {
    if segments != [] {
      NonBlankFromSegments(segments[1..]);
      var h := if !Blank(segments[0]) then [segments[0]] else [];
      var r := NonBlank(segments);
      assert r == h + NonBlank(segments[1..]);
      forall k | 0 <= k < |r|
        ensures r[k] in segments
      {
        if k >= |h| {
          assert r[k] == NonBlank(segments[1..])[k - |h|];
          assert r[k] in segments[1..];
        }
      }
    }
  }

  /** No paragraph holds a line break. */
  lemma ParagraphsAreLines(text: string)
    ensures forall k :: 0 <= k < |Paragraphs(text)| ==> '\n' !in Paragraphs(text)[k]
  {
    NonBlankFromSegments(Split(text, '\n'));
  }

  lemma {:induction false} NonBlankAppend(a: seq<string>, b: seq<string>)
    ensures NonBlank(a + b) == NonBlank(a) + NonBlank(b)
    decreases |a|
  {
    if a != [] {
      var h := if !Blank(a[0]) then [a[0]] else [];
      assert (a + b)[0] == a[0] && (a + b)[1..] == a[1..] + b;
      calc {
        NonBlank(a + b);
        h + NonBlank(a[1..] + b);
        { NonBlankAppend(a[1..], b); }
        h + (NonBlank(a[1..]) + NonBlank(b));
        (h + NonBlank(a[1..])) + NonBlank(b);
        NonBlank(a) + NonBlank(b);
      }
    } else {
      assert a + b == b;
    }
  }

  /** A single non-blank line is one paragraph, shown as it is, surrounding spaces included. */
  lemma OneLine(line: string)
    requires '\n' !in line && !Blank(line)
    ensures Paragraphs(line) == [line]
  {
    SplitWithoutSeparator(line, '\n');
    assert [line][1..] == [];
  }

  /** A blank line contributes no paragraph. */
  lemma BlankLine(line: string)
    requires '\n' !in line && Blank(line)
    ensures Paragraphs(line) == []
  {
    SplitWithoutSeparator(line, '\n');
    assert [line][1..] == [];
  }

  /** The paragraphs of a text are those of its first line followed by those of the rest. */
  lemma ParagraphsOfLines(first: string, rest: string)
    requires '\n' !in first
    ensures Paragraphs(first + "\n" + rest) == Paragraphs(first) + Paragraphs(rest)
  {
    SplitAfterFirst(first, '\n', rest);
    SplitWithoutSeparator(first, '\n');
    NonBlankAppend([first], Split(rest, '\n'));
  }

  // ---------------------------------------------------------------------
  // The component
  // ---------------------------------------------------------------------

  /** What the page shows. */
  datatype NewsView =
    | Spinner
    | ErrorBox(message: string)
    | Page(paragraphs: seq<string>, sources: SourcesPanel)
    | Header

  class NewsFeedState {
    var news: Option<NewsResponse>
    var loading: bool
    var error: Option<string>

    /** The initial state: loading, with nothing fetched and no error. */
    constructor()
      ensures news == None && loading && error == None
    {
      news := None;
      loading := true;
      error := None;
    }

    /** `loadNews` once `fetchCricketNews` has settled. */
    method CompleteLoad(c: Completion)
      modifies this`news, this`loading, this`error
      ensures FetchCricketNews(c).Success? ==> news == Some(FetchCricketNews(c).value) && error == old(error)
      ensures FetchCricketNews(c).Failure? ==> error == Some(LoadFailedMessage) && news == old(news)
      ensures !loading
    {
      var r := FetchCricketNews(c);
      if r.Success? {
        news := Some(r.value);
      } else {
        error := Some(LoadFailedMessage);
      }
      loading := false;
    }

    /** The page for the current state: spinner, then error box, then content. */
    function View(): (v: NewsView)
      reads this
      ensures v.Spinner? <==> loading
      ensures v.ErrorBox? <==> !loading && Truthy(error)
      ensures v.ErrorBox? ==> v.message == error.value
      ensures v.Page? <==> !loading && !Truthy(error) && news.Some?
      ensures v.Page? ==> v.paragraphs == Paragraphs(news.value.text)
      ensures v.Page? ==> v.sources == RenderSources(news.value.groundingChunks)
    {
      if loading then Spinner
      else if Truthy(error) then ErrorBox(error.value)
      else if news.Some? then Page(Paragraphs(news.value.text), RenderSources(news.value.groundingChunks))
      else Header
    }
  }
}
