/**
  The fetch and expansion cases of the repository's tests, stated over the
  model: the inline map decodes to its one-state index, and the two passes
  give their frames the expected context with a single fetch each.
 */
module FetchSourceExamples {
  import opened Results
  import opened Text
  import opened Discovery
  import opened ModuleNames
  import opened DataUri
  import opened Sourcemaps
  import opened Context
  import opened FetchSource
  import opened InlineMap

  /** The document the inline map's JSON text describes. */
  predicate IsInlineDocument(doc: MapDocument, src: string, text: string)
  {
    doc == MapDocument([src], [], ";AAAA", Some([Some(text)]))
  }

  /**
    The index with one state, line 1 column 0 of the generated file at
    line 0 column 0 of `src`, whose one line is `text`.
   */
  function OneStateIndex(src: string, text: string): SourceMapIndex
  {
    SourceMapIndex([MappingEntry(1, 0, Some(src), 0, 0, None)], [(1, 0)], {src}, map[src := [text]])
  }

  /** A data URI carrying the inline document decodes to its one-state index. */
  lemma InlineIndex(uri: string, json: string, parse: Parser, doc: MapDocument, src: string, text: string)
    requires DecodeDataUri(uri) == Ok(json) && parse(json) == Some(doc)
    requires IsInlineDocument(doc, src, text) && '\n' !in text
    ensures FetchSourcemap(uri, parse) == Ok(OneStateIndex(src, text))
  {
    SingleStateIndex(doc, src, text);
  }

  /** The inlined source of `/test.js` is a single line. */
  lemma InlineTextIsOneLine(text: string)
    requires text == "console.log(\"hello, World!\")"
    ensures '\n' !in text
  {
  }

  /**
    `FetchBase64SourcemapTest`: the inline map is an index with one state,
    line 1 column 0 of the generated file at line 0 column 0 of `/test.js`,
    and the one inlined line of `/test.js`.
   */
  lemma FetchInlineMap(uri: string, json: string, parse: Parser, doc: MapDocument, src: string, text: string)
    requires uri == InlineMapUri && json == InlineMapJson
    requires src == "/test.js" && text == "console.log(\"hello, World!\")"
    requires IsInlineDocument(doc, src, text) && parse(json) == Some(doc)
    ensures FetchSourcemap(uri, parse) == Ok(OneStateIndex(src, text))
  {
    InlineMapDecodes(uri, json);
    InlineTextIsOneLine(text);
    InlineIndex(uri, json, parse, doc, src, text);
  }

  /** A URL logged once, and nothing else, is the whole log. */
  lemma OnlyCall(log: seq<string>, url: string)
    requires NoDuplicates(log)
    requires forall u :: u in log <==> u == url
    ensures log == [url]
  {
    assert url in log;
    assert log[0] in log;
    ghost var second := if |log| > 1 then log[1] else url;
    assert second in log;
    if |log| > 1 {
      assert false;
    }
  }

  /** Every line of `hello world` is one character, too short for a map comment. */
  lemma HelloWorldLinesAreShort(lines: seq<string>)
    requires IsHelloWorld(lines)
    ensures forall line :: line in lines ==> |line| < CommentPrefixLength
  {
    forall line | line in lines
      ensures |line| < CommentPrefixLength
    {
      var k :| 0 <= k < |lines| && lines[k] == line;
    }
  }

  /** A body whose lines are all shorter than the comment prefix names no map. */
  lemma ShortLinesHaveNoMap(page: UrlResult)
    requires page.headers == map[]
    requires forall line :: line in Split(page.body, '\n') ==> |line| < CommentPrefixLength
    ensures DiscoverSourcemap(page) == None
  {
  }

  /**
    A frame of `test_simple` at `lineno` in a file without a map: it keeps
    its position and shows the file's own lines; its file is all it needs.
   */
  lemma SimpleFrame(url: string, page: UrlResult, pages: map<string, UrlResult>, parse: Parser,
                    frame: Frame, lineno: nat)
    requires pages == map[url := page] && DiscoverSourcemap(page) == None
    requires frame.absPath == Some(url) && frame.lineno == Some(lineno)
    requires 1 <= lineno <= |SourceLines(page.body)|
    ensures ExpandFrame(frame, pages, parse) == frame.(context := ContextAt(SourceLines(page.body), lineno - 1))
    ensures Needed(frame, pages) == {url}
  {
    UnmappedFrame(frame, pages, parse);
  }

  /**
    What the pass of `test_simple` computes, for any file without a map
    of at least four lines: the frames at lines 4 and 1 get the context
    around those lines, and the file is all they need.
   */
  lemma SimplePassResult(url: string, page: UrlResult, pages: map<string, UrlResult>, parse: Parser,
                         frames: seq<Frame>)
    requires pages == map[url := page] && DiscoverSourcemap(page) == None && |SourceLines(page.body)| >= 4
    requires |frames| == 2
    requires frames[0].absPath == Some(url) && frames[0].lineno == Some(4)
    requires frames[1].absPath == Some(url) && frames[1].lineno == Some(1)
    ensures ExpandAll(frames, pages, parse) == [
      frames[0].(context := ContextAt(SourceLines(page.body), 3)),
      frames[1].(context := ContextAt(SourceLines(page.body), 0))]
    ensures NeededAll(frames, pages) == {url}
  {
    SimpleFrame(url, page, pages, parse, frames[0], 4);
    SimpleFrame(url, page, pages, parse, frames[1], 1);
    TwoFramePass(frames, pages, parse);
  }

  /** A pass over two frames expands each in its slot and needs what either needs. */
  lemma TwoFramePass(frames: seq<Frame>, pages: map<string, UrlResult>, parse: Parser)
    requires |frames| == 2
    ensures ExpandAll(frames, pages, parse) == [ExpandFrame(frames[0], pages, parse), ExpandFrame(frames[1], pages, parse)]
    ensures NeededAll(frames, pages) == Needed(frames[0], pages) + Needed(frames[1], pages)
  {
    ExpandAllPointwise(frames, pages, parse);
    assert frames[..|frames| - 1] == [frames[0]];
    assert [frames[0]][..0] == [];
    assert NeededAll([frames[0]], pages) == Needed(frames[0], pages);
  }

  /** The `hello world` file of `test_simple` names no map and has its eleven lines. */
  lemma HelloWorldPage(page: UrlResult, lines: seq<string>)
    requires IsHelloWorld(lines)
    requires page.headers == map[] && page.body == Join(lines, '\n')
    ensures DiscoverSourcemap(page) == None && SourceLines(page.body) == lines
  {
    HelloWorldLines(lines);
    HelloWorldLinesAreShort(lines);
    ShortLinesHaveNoMap(page);
  }

  /**
    `ExpandJavascriptSourceTest.test_simple`: both frames of `foo.js` get
    the lines around them, and `foo.js` is fetched exactly once.
   */
  method SimplePass(frames: array<Frame>, fetcher: Fetcher, parse: Parser, url: string, ghost lines: seq<string>)
    modifies frames, fetcher
    requires url == "http://example.com/foo.js" && IsHelloWorld(lines)
    requires fetcher.pages == map[url := UrlResult(url, map[], Join(lines, '\n'))] && fetcher.calls == []
    requires frames.Length == 2
    requires frames[0] == Frame(Some(url), Some("foo.js"), None, Some(4), Some(0), None)
    requires frames[1] == Frame(Some(url), Some("foo.js"), None, Some(1), Some(0), None)
    ensures fetcher.calls == [url]
    ensures frames[0].context == Some(SourceContext(Some(["h", "e", "l"]), "l", ["o", " ", "w", "o", "r"]))
    ensures frames[1].context == Some(SourceContext(None, "h", ["e", "l", "l", "o", " "]))
  {
    HelloWorldPage(fetcher.pages[url], lines);
    SimplePassResult(url, fetcher.pages[url], fetcher.pages, parse, frames[..]);
    FourthLineContext(lines);
    FirstLineContext(lines);
    ExpandJavascriptSource(frames, fetcher, parse);
    OnlyCall(fetcher.calls, url);
  }

  /**
    A frame at line 1 column 0 of a file whose map loads, without a fetch,
    as the one-state index: it shows the one inlined line, with nothing
    above or below, and only the file itself is fetched.
   */
  lemma InlinedFrame(url: string, page: UrlResult, pages: map<string, UrlResult>, parse: Parser,
                     uri: string, src: string, text: string, frame: Frame)
    requires pages == map[url := page] && DiscoverSourcemap(page) == Some(uri) && MapNeeded(Some(uri)) == {}
    requires LoadIndex(uri, pages, parse) == Some(OneStateIndex(src, text))
    requires frame.absPath == Some(url) && frame.lineno == Some(1) && frame.colno == Some(0)
    ensures ExpandFrame(frame, pages, parse).context == Some(SourceContext(None, text, []))
    ensures Needed(frame, pages) == {url}
  {
    var index := OneStateIndex(src, text);
    OneStateResolves(src, text);
    MappedFrame(frame, pages, parse, uri, index, index.states[0]);
  }

  /** The pass of `test_inlined_sources` over its one frame. */
  lemma InlinedPassResult(url: string, page: UrlResult, pages: map<string, UrlResult>, parse: Parser,
                          uri: string, src: string, text: string, frames: seq<Frame>)
    requires pages == map[url := page] && DiscoverSourcemap(page) == Some(uri) && MapNeeded(Some(uri)) == {}
    requires LoadIndex(uri, pages, parse) == Some(OneStateIndex(src, text))
    requires |frames| == 1
    requires frames[0].absPath == Some(url) && frames[0].lineno == Some(1) && frames[0].colno == Some(0)
    ensures |ExpandAll(frames, pages, parse)| == 1
    ensures ExpandAll(frames, pages, parse)[0].context == Some(SourceContext(None, text, []))
    ensures NeededAll(frames, pages) == {url}
  {
    InlinedFrame(url, page, pages, parse, uri, src, text, frames[0]);
    assert frames[..0] == [];
  }

  /** Line 1 column 0 resolves to the one state of the index. */
  lemma OneStateResolves(src: string, text: string)
    requires Valid(OneStateIndex(src, text))
    ensures Resolve(OneStateIndex(src, text), 1, 0) == Some(OneStateIndex(src, text).states[0])
  {
    var index := OneStateIndex(src, text);
    assert index.states[0] in index.states;
  }

  /** The file's header names the data URI, which loads as the one-state index and needs no fetch. */
  lemma InlinedMapLoads(url: string, page: UrlResult, pages: map<string, UrlResult>, parse: Parser,
                        uri: string, json: string, doc: MapDocument, src: string, text: string)
    requires pages == map[url := page] && page.headers == map[XSourceMapHeader := uri]
    requires DecodeDataUri(uri) == Ok(json) && parse(json) == Some(doc)
    requires IsInlineDocument(doc, src, text) && '\n' !in text
    ensures DiscoverSourcemap(page) == Some(uri) && MapNeeded(Some(uri)) == {}
    ensures LoadIndex(uri, pages, parse) == Some(OneStateIndex(src, text))
  {
    assert IsDataUri(uri);
    InlineIndex(uri, json, parse, doc, src, text);
    LoadIndexOk(uri, pages, parse);
  }

  /**
    `ExpandJavascriptSourceTest.test_inlined_sources`: the frame of
    `test.js` shows the inlined line of `/test.js` with nothing around it,
    and only `test.js` is fetched, once.
   */
  method InlinedPass(frames: array<Frame>, fetcher: Fetcher, parse: Parser, url: string, body: string,
                     ghost uri: string, ghost json: string, ghost doc: MapDocument, ghost text: string)
    modifies frames, fetcher
    requires url == "http://example.com/test.js"
    requires DecodeDataUri(uri) == Ok(json) && parse(json) == Some(doc)
    requires IsInlineDocument(doc, "/test.js", text) && '\n' !in text
    requires fetcher.pages == map[url := UrlResult(url, map[XSourceMapHeader := uri], body)] && fetcher.calls == []
    requires frames.Length == 1
    requires frames[0] == Frame(Some(url), Some("test.js"), None, Some(1), Some(0), None)
    ensures fetcher.calls == [url]
    ensures frames[0].context == Some(SourceContext(None, text, []))
  {
    InlinedMapLoads(url, fetcher.pages[url], fetcher.pages, parse, uri, json, doc, "/test.js", text);
    InlinedPassResult(url, fetcher.pages[url], fetcher.pages, parse, uri, "/test.js", text, frames[..]);
    ExpandJavascriptSource(frames, fetcher, parse);
    OnlyCall(fetcher.calls, url);
  }
}
