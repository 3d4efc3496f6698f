/**
  `expand_javascript_source`: every stack frame whose file can be fetched
  gets the source lines around it, read through the file's source map
  when it has one, and each URL is fetched at most once per pass.
 */
module FetchSource {
  import opened Results
  import opened Text
  import opened Discovery
  import opened ModuleNames
  import opened DataUri
  import opened Sourcemaps
  import opened Context

  /** The fields of a stack frame this pass reads and writes. */
  datatype Frame = Frame(
    absPath: Option<string>,
    filename: Option<string>,
    moduleName: Option<string>,
    lineno: Option<int>,
    colno: Option<int>,
    context: Option<SourceContext>)

  /** The JSON parser of map documents, which this model takes as given. */
  type Parser = string -> Option<MapDocument>

  predicate IsDataUri(reference: string)
  {
    StartsWith(reference, DataScheme)
  }

  /** What fetching a URL gives: its page, or nothing when the fetch fails. */
  function Fetched(pages: map<string, UrlResult>, url: string): Option<UrlResult>
  {
    if url in pages then Some(pages[url]) else None
  }

  /**
    The index behind a map reference: decoded from the reference itself
    when it is a data URI, otherwise from the fetched document. Any
    failure leaves no index.
   */
  function LoadIndex(reference: string, pages: map<string, UrlResult>, parse: Parser): (r: Option<SourceMapIndex>)
    ensures r.Some? ==> Valid(r.value)
  {
    match MapText(reference, pages)
    case None => None
    case Some(text) =>
      match IndexText(text, parse)
      case Ok(index) => Some(index)
      case Err(_) => None
  }

  /** The text of the map document behind a reference: the data URI's payload, or the fetched document. */
  function MapText(reference: string, pages: map<string, UrlResult>): Option<string>
  {
    if IsDataUri(reference) then
      match DecodeDataUri(reference)
      case Ok(text) => Some(text)
      case Err(_) => None
    else
      match Fetched(pages, reference)
      case None => None
      case Some(page) => Some(page.body)
  }

  /** A data URI loads as `fetch_sourcemap` decodes it; any other reference from the fetched document. */
  lemma LoadIndexOk(reference: string, pages: map<string, UrlResult>, parse: Parser)
    ensures IsDataUri(reference) ==>
      (LoadIndex(reference, pages, parse).Some? <==> FetchSourcemap(reference, parse).Ok?)
    ensures IsDataUri(reference) && FetchSourcemap(reference, parse).Ok? ==>
      LoadIndex(reference, pages, parse).value == FetchSourcemap(reference, parse).value
    ensures !IsDataUri(reference) ==>
      (LoadIndex(reference, pages, parse).Some? <==> reference in pages && IndexText(pages[reference].body, parse).Ok?)
  {
  }

  /**
    The frame with context from the fetched file itself around its 1-based
    `lineno`; unchanged when it has no such line.
   */
  function WithRawContext(frame: Frame, body: string): (r: Frame)
    ensures r == frame || (frame.lineno.Some? && frame.lineno.value >= 1
      && r == frame.(context := ContextAt(SourceLines(body), frame.lineno.value - 1)) && r.context.Some?)
  {
    if frame.lineno.Some? && frame.lineno.value >= 1 then
      match ContextAt(SourceLines(body), frame.lineno.value - 1)
      case None => frame
      case Some(c) => frame.(context := Some(c))
    else frame
  }

  /** The frame moved to an original position, with context from that source's inlined text. */
  function AtOriginal(frame: Frame, e: MappingEntry, c: SourceContext): (r: Frame)
    requires e.src.Some?
  {
    var m := GenerateModule(e.src);
    frame.(filename := Some(m), moduleName := Some(m), lineno := Some(e.srcLine + 1), colno := Some(e.srcCol),
           context := Some(c))
  }

  /**
    The frame resolved through an index. The frame's `(lineno, colno)` is
    looked up as it stands; when the state found names a source whose text
    is inlined and has the original line, the frame moves there. Otherwise
    the fetched file gives the context.
   */
  function WithMappedContext(frame: Frame, index: SourceMapIndex, body: string): Frame
    requires Valid(index)
  {
    if frame.lineno.Some? && frame.lineno.value >= 1 && frame.colno.Some? && frame.colno.value >= 0 then
      match Resolve(index, frame.lineno.value, frame.colno.value)
      case None => WithRawContext(frame, body)
      case Some(e) =>
        if e.src.Some? && e.src.value in index.content then
          match ContextAt(index.content[e.src.value], e.srcLine)
          case None => WithRawContext(frame, body)
          case Some(c) => AtOriginal(frame, e, c)
        else WithRawContext(frame, body)
    else WithRawContext(frame, body)
  }

  /** One frame after the pass, given what each URL fetches. */
  function ExpandFrame(frame: Frame, pages: map<string, UrlResult>, parse: Parser): (r: Frame)
    ensures r.absPath == frame.absPath
    ensures r != frame ==> r.context.Some?
    ensures frame.absPath.None? || frame.absPath.value !in pages ==> r == frame
  {
    match frame.absPath
    case None => frame
    case Some(url) =>
      match Fetched(pages, url)
      case None => frame
      case Some(page) => ExpandFetched(frame, page, pages, parse)
  }

  /** A frame whose file was fetched: through its source map when one loads, otherwise from the file. */
  function ExpandFetched(frame: Frame, page: UrlResult, pages: map<string, UrlResult>, parse: Parser): Frame
  {
    match DiscoverSourcemap(page)
    case None => WithRawContext(frame, page.body)
    case Some(reference) => ExpandWith(frame, LoadIndex(reference, pages, parse), page.body)
  }

  function ExpandWith(frame: Frame, index: Option<SourceMapIndex>, body: string): Frame
    requires index.Some? ==> Valid(index.value)
  {
    match index
    case None => WithRawContext(frame, body)
    case Some(i) => WithMappedContext(frame, i, body)
  }

  /** The URLs one frame needs fetched: its file and, when that names a map by URL, the map. */
  function Needed(frame: Frame, pages: map<string, UrlResult>): set<string>
  {
    match frame.absPath
    case None => {}
    case Some(url) => {url} + if url in pages then MapNeeded(DiscoverSourcemap(pages[url])) else {}
  }

  /** A map reference is fetched only when it is not a data URI. */
  function MapNeeded(reference: Option<string>): set<string>
  {
    match reference
    case Some(r) => if IsDataUri(r) then {} else {r}
    case None => {}
  }

  function NeededAll(frames: seq<Frame>, pages: map<string, UrlResult>): set<string>
  {
    if frames == [] then {} else NeededAll(frames[..|frames| - 1], pages) + Needed(frames[|frames| - 1], pages)
  }

  /**
    A file without a map: the frame keeps its position and names, and its
    context comes from the file's own lines. Only the file is fetched.
   */
  lemma UnmappedFrame(frame: Frame, pages: map<string, UrlResult>, parse: Parser)
    requires frame.absPath.Some? && frame.absPath.value in pages
    requires DiscoverSourcemap(pages[frame.absPath.value]).None?
    ensures ExpandFrame(frame, pages, parse) == WithRawContext(frame, pages[frame.absPath.value].body)
    ensures ExpandFrame(frame, pages, parse).(context := frame.context) == frame
    ensures Needed(frame, pages) == {frame.absPath.value}
  {
  }

  /**
    A frame whose position the map resolves to a source with inlined text:
    it moves to that source's original line (1-based) and column, is named
    after that source, and shows that source's lines. The file and, unless
    the map is a data URI, the map are fetched.
   */
  lemma MappedFrame(frame: Frame, pages: map<string, UrlResult>, parse: Parser, reference: string,
                    index: SourceMapIndex, e: MappingEntry)
    requires frame.absPath.Some? && frame.absPath.value in pages
    requires DiscoverSourcemap(pages[frame.absPath.value]) == Some(reference)
    requires LoadIndex(reference, pages, parse) == Some(index)
    requires frame.lineno.Some? && frame.lineno.value >= 1 && frame.colno.Some? && frame.colno.value >= 0
    requires Resolve(index, frame.lineno.value, frame.colno.value) == Some(e)
    requires e.src.Some? && e.src.value in index.content && e.srcLine < |index.content[e.src.value]|
    ensures var r := ExpandFrame(frame, pages, parse);
      r.absPath == frame.absPath && r.lineno == Some(e.srcLine + 1) && r.colno == Some(e.srcCol)
      && r.filename == Some(GenerateModule(e.src)) && r.moduleName == r.filename
      && r.context == ContextAt(index.content[e.src.value], e.srcLine)
    ensures Needed(frame, pages) == {frame.absPath.value} + MapNeeded(Some(reference))
  {
    var page := pages[frame.absPath.value];
    var c := ContextAt(index.content[e.src.value], e.srcLine);
    assert ExpandFrame(frame, pages, parse) == ExpandFetched(frame, page, pages, parse);
    assert ExpandFetched(frame, page, pages, parse) == WithMappedContext(frame, index, page.body);
    assert WithMappedContext(frame, index, page.body) == AtOriginal(frame, e, c.value);
  }

  /**
    A file that names a map which does not load: the frame is treated as
    if the file had no map, with context from the file's own lines.
   */
  lemma MapNotLoaded(frame: Frame, pages: map<string, UrlResult>, parse: Parser, reference: string)
    requires frame.absPath.Some? && frame.absPath.value in pages
    requires DiscoverSourcemap(pages[frame.absPath.value]) == Some(reference)
    requires LoadIndex(reference, pages, parse).None?
    ensures ExpandFrame(frame, pages, parse) == WithRawContext(frame, pages[frame.absPath.value].body)
    ensures ExpandFrame(frame, pages, parse).(context := frame.context) == frame
  {
    var page := pages[frame.absPath.value];
    assert ExpandFrame(frame, pages, parse) == ExpandFetched(frame, page, pages, parse);
  }

  /**
    A file whose map loads but does not place the frame in an inlined
    source: the frame has no usable position, the map has no state at or
    before it, or the state found names no source, a source without
    inlined text, or a line past that text's end. The frame keeps its
    position and names, with context from the file's own lines.
   */
  lemma MapDoesNotPlace(frame: Frame, pages: map<string, UrlResult>, parse: Parser, reference: string,
                        index: SourceMapIndex)
    requires frame.absPath.Some? && frame.absPath.value in pages
    requires DiscoverSourcemap(pages[frame.absPath.value]) == Some(reference)
    requires LoadIndex(reference, pages, parse) == Some(index)
    requires !(frame.lineno.Some? && frame.lineno.value >= 1 && frame.colno.Some? && frame.colno.value >= 0)
      || Resolve(index, frame.lineno.value, frame.colno.value).None?
      || NotInlined(Resolve(index, frame.lineno.value, frame.colno.value).value, index)
    ensures ExpandFrame(frame, pages, parse) == WithRawContext(frame, pages[frame.absPath.value].body)
    ensures ExpandFrame(frame, pages, parse).(context := frame.context) == frame
  {
    var page := pages[frame.absPath.value];
    assert ExpandFrame(frame, pages, parse) == ExpandFetched(frame, page, pages, parse);
    assert ExpandFetched(frame, page, pages, parse) == WithMappedContext(frame, index, page.body);
  }

  /** A state whose original line has no inlined text to show. */
  predicate NotInlined(e: MappingEntry, index: SourceMapIndex)
  {
    e.src.None? || e.src.value !in index.content || e.srcLine >= |index.content[e.src.value]|
  }

  predicate NoDuplicates(s: seq<string>)
  {
    forall i, j :: 0 <= i < j < |s| ==> s[i] != s[j]
  }

  /** The URLs of a call log, gathered one call at a time. */
  function Elements(s: seq<string>): set<string>
  {
    if s == [] then {} else Elements(s[..|s| - 1]) + {s[|s| - 1]}
  }

  /** No URL of a call log is asked for twice, checked one call at a time. */
  predicate Distinct(s: seq<string>)
  {
    s == [] || (Distinct(s[..|s| - 1]) && s[|s| - 1] !in Elements(s[..|s| - 1]))
  }

  lemma {:induction false} ElementsAre(s: seq<string>)
    ensures forall u :: u in Elements(s) <==> u in s
  {
    if s != [] {
      ElementsAre(s[..|s| - 1]);
      assert s == s[..|s| - 1] + [s[|s| - 1]];
    }
  }

  lemma {:induction false} DistinctIsNoDuplicates(s: seq<string>)
    requires Distinct(s)
    ensures NoDuplicates(s)
  {
    if s != [] {
      var init := s[..|s| - 1];
      DistinctIsNoDuplicates(init);
      ElementsAre(init);
      forall i, j | 0 <= i < j < |s|
        ensures s[i] != s[j]
      {
        if j < |s| - 1 {
          assert s[i] == init[i] && s[j] == init[j];
        } else {
          assert s[i] == init[i];
        }
      }
    }
  }

  /** Since `start`, the calls made are `urls`, each exactly once. */
  predicate CallLog(calls: seq<string>, start: seq<string>, urls: set<string>)
  {
    start <= calls && Distinct(calls[|start|..]) && Elements(calls[|start|..]) == urls
  }

  /** One more call, for a URL not asked for before. */
  lemma CallLogAppend(calls: seq<string>, start: seq<string>, urls: set<string>, url: string)
    requires CallLog(calls, start, urls) && url !in urls
    ensures CallLog(calls + [url], start, urls + {url})
  {
    var log := (calls + [url])[|start|..];
    assert log[..|log| - 1] == calls[|start|..];
  }

  /** A call log names each of its URLs exactly once. */
  lemma CallLogIsOnce(calls: seq<string>, start: seq<string>, urls: set<string>)
    requires CallLog(calls, start, urls)
    ensures start <= calls && NoDuplicates(calls[|start|..])
    ensures forall u :: u in calls[|start|..] <==> u in urls
  {
    DistinctIsNoDuplicates(calls[|start|..]);
    ElementsAre(calls[|start|..]);
  }

  /** The fetch collaborator: a fixed set of pages and the log of URLs asked for. */
  class Fetcher {
    const pages: map<string, UrlResult>
    var calls: seq<string>

    constructor(pages: map<string, UrlResult>)
      ensures this.pages == pages && calls == []
    {
      this.pages := pages;
      calls := [];
    }

    /** `fetch_url`: records the call and gives the page, or nothing when it fails. */
    method Fetch(url: string) returns (r: Option<UrlResult>)
      modifies this
      ensures calls == old(calls) + [url]
      ensures r == Fetched(pages, url)
    {
      calls := calls + [url];
      r := Fetched(pages, url);
    }
  }

  /** Every cached fetch outcome is the one the fetcher gives. */
  predicate PagesAgree(cache: map<string, Option<UrlResult>>, pages: map<string, UrlResult>)
  {
    forall u :: u in cache ==> cache[u] == Fetched(pages, u)
  }

  /** Every cached index is the one its reference loads, and any URL it needed is in the page cache. */
  predicate IndexesAgree(cache: map<string, Option<SourceMapIndex>>, pages: map<string, UrlResult>,
                         parse: Parser, fetched: set<string>)
  {
    forall r :: r in cache ==> cache[r] == LoadIndex(r, pages, parse) && (IsDataUri(r) || r in fetched)
  }

  /** A fetch through the per-pass cache: the fetcher is asked only for a URL not yet seen. */
  method CachedFetch(fetcher: Fetcher, cache: map<string, Option<UrlResult>>, url: string, ghost start: seq<string>)
    returns (r: Option<UrlResult>, cache': map<string, Option<UrlResult>>)
    modifies fetcher
    requires PagesAgree(cache, fetcher.pages) && CallLog(fetcher.calls, start, cache.Keys)
    ensures r == Fetched(fetcher.pages, url)
    ensures PagesAgree(cache', fetcher.pages) && cache'.Keys == cache.Keys + {url}
    ensures CallLog(fetcher.calls, start, cache'.Keys)
  {
    if url in cache {
      r := cache[url];
      cache' := cache;
    } else {
      CallLogAppend(fetcher.calls, start, cache.Keys, url);
      r := fetcher.Fetch(url);
      cache' := cache[url := r];
    }
  }

  /** `ExpandWith`, with the state found by binary search. */
  method ResolveFrame(frame: Frame, index: Option<SourceMapIndex>, body: string) returns (r: Frame)
    requires index.Some? ==> Valid(index.value)
    ensures r == ExpandWith(frame, index, body)
  {
    if index.Some? && frame.lineno.Some? && frame.lineno.value >= 1 && frame.colno.Some? && frame.colno.value >= 0 {
      var state := Lookup(index.value, frame.lineno.value, frame.colno.value);
      if state.Some? && state.value.src.Some? && state.value.src.value in index.value.content {
        var e := state.value;
        match ContextAt(index.value.content[e.src.value], e.srcLine)
        case None => r := WithRawContext(frame, body);
        case Some(c) => r := AtOriginal(frame, e, c);
      } else {
        r := WithRawContext(frame, body);
      }
    } else {
      r := WithRawContext(frame, body);
    }
  }

  /** The index behind a map reference, through the caches; only a map named by URL is fetched. */
  method CachedIndex(reference: string, fetcher: Fetcher, parse: Parser,
                     pageCache: map<string, Option<UrlResult>>, indexCache: map<string, Option<SourceMapIndex>>,
                     ghost start: seq<string>)
    returns (index: Option<SourceMapIndex>, pageCache': map<string, Option<UrlResult>>,
             indexCache': map<string, Option<SourceMapIndex>>)
    modifies fetcher
    requires PagesAgree(pageCache, fetcher.pages) && CallLog(fetcher.calls, start, pageCache.Keys)
    requires IndexesAgree(indexCache, fetcher.pages, parse, pageCache.Keys)
    ensures index == LoadIndex(reference, fetcher.pages, parse)
    ensures PagesAgree(pageCache', fetcher.pages) && CallLog(fetcher.calls, start, pageCache'.Keys)
    ensures IndexesAgree(indexCache', fetcher.pages, parse, pageCache'.Keys)
    ensures pageCache'.Keys == pageCache.Keys + MapNeeded(Some(reference))
  {
    pageCache', indexCache' := pageCache, indexCache;
    LoadIndexOk(reference, fetcher.pages, parse);
    if reference in indexCache {
      index := indexCache[reference];
    } else if IsDataUri(reference) {
      index := match FetchSourcemap(reference, parse)
        case Ok(i) => Some(i)
        case Err(_) => None;
      indexCache' := indexCache[reference := index];
    } else {
      var mapPage;
      mapPage, pageCache' := CachedFetch(fetcher, pageCache, reference, start);
      index := if mapPage.None? then None else
        match IndexText(mapPage.value.body, parse)
        case Ok(i) => Some(i)
        case Err(_) => None;
      indexCache' := indexCache[reference := index];
    }
  }

  /** A frame whose file was fetched, through the caches. */
  method ExpandPage(frame: Frame, page: UrlResult, fetcher: Fetcher, parse: Parser,
                    pageCache: map<string, Option<UrlResult>>, indexCache: map<string, Option<SourceMapIndex>>,
                    ghost start: seq<string>)
    returns (r: Frame, pageCache': map<string, Option<UrlResult>>, indexCache': map<string, Option<SourceMapIndex>>)
    modifies fetcher
    requires PagesAgree(pageCache, fetcher.pages) && CallLog(fetcher.calls, start, pageCache.Keys)
    requires IndexesAgree(indexCache, fetcher.pages, parse, pageCache.Keys)
    ensures r == ExpandFetched(frame, page, fetcher.pages, parse)
    ensures PagesAgree(pageCache', fetcher.pages) && CallLog(fetcher.calls, start, pageCache'.Keys)
    ensures IndexesAgree(indexCache', fetcher.pages, parse, pageCache'.Keys)
    ensures pageCache'.Keys == pageCache.Keys + MapNeeded(DiscoverSourcemap(page))
  {
    var reference := DiscoverSourcemap(page);
    if reference.None? {
      return WithRawContext(frame, page.body), pageCache, indexCache;
    }
    var index;
    index, pageCache', indexCache' := CachedIndex(reference.value, fetcher, parse, pageCache, indexCache, start);
    r := ResolveFrame(frame, index, page.body);
  }

  /** One frame of the pass, through the caches. */
  method ExpandOne(frame: Frame, fetcher: Fetcher, parse: Parser,
                   pageCache: map<string, Option<UrlResult>>, indexCache: map<string, Option<SourceMapIndex>>,
                   ghost start: seq<string>)
    returns (r: Frame, pageCache': map<string, Option<UrlResult>>, indexCache': map<string, Option<SourceMapIndex>>)
    modifies fetcher
    requires PagesAgree(pageCache, fetcher.pages) && CallLog(fetcher.calls, start, pageCache.Keys)
    requires IndexesAgree(indexCache, fetcher.pages, parse, pageCache.Keys)
    ensures r == ExpandFrame(frame, fetcher.pages, parse)
    ensures PagesAgree(pageCache', fetcher.pages) && CallLog(fetcher.calls, start, pageCache'.Keys)
    ensures IndexesAgree(indexCache', fetcher.pages, parse, pageCache'.Keys)
    ensures pageCache'.Keys == pageCache.Keys + Needed(frame, fetcher.pages)
  {
    if frame.absPath.None? {
      return frame, pageCache, indexCache;
    }
    var page;
    page, pageCache' := CachedFetch(fetcher, pageCache, frame.absPath.value, start);
    if page.None? {
      return frame, pageCache', indexCache;
    }
    r, pageCache', indexCache' := ExpandPage(frame, page.value, fetcher, parse, pageCache', indexCache, start);
  }

  /** The frames of a pass, each expanded on its own. */
  function ExpandAll(frames: seq<Frame>, pages: map<string, UrlResult>, parse: Parser): seq<Frame>
  {
    if frames == [] then [] else ExpandAll(frames[..|frames| - 1], pages, parse) + [ExpandFrame(frames[|frames| - 1], pages, parse)]
  }

  /** Expanding a pass expands every frame in its own slot. */
  lemma {:induction false} ExpandAllPointwise(frames: seq<Frame>, pages: map<string, UrlResult>, parse: Parser)
    ensures |ExpandAll(frames, pages, parse)| == |frames|
    ensures forall i :: 0 <= i < |frames| ==> ExpandAll(frames, pages, parse)[i] == ExpandFrame(frames[i], pages, parse)
  {
    if frames != [] {
      ExpandAllPointwise(frames[..|frames| - 1], pages, parse);
    }
  }

  lemma ExpandAllStep(frames: seq<Frame>, k: nat, pages: map<string, UrlResult>, parse: Parser)
    requires k < |frames|
    ensures ExpandAll(frames[..k + 1], pages, parse) == ExpandAll(frames[..k], pages, parse) + [ExpandFrame(frames[k], pages, parse)]
  {
    assert frames[..k + 1][..k] == frames[..k];
  }

  lemma NeededAllStep(frames: seq<Frame>, k: nat, pages: map<string, UrlResult>)
    requires k < |frames|
    ensures NeededAll(frames[..k + 1], pages) == NeededAll(frames[..k], pages) + Needed(frames[k], pages)
  {
    assert frames[..k + 1][..k] == frames[..k];
  }

  /** The pass over slot `k`: the frames before it are done, and it joins them. */
  method ExpandSlot(frames: array<Frame>, k: nat, fetcher: Fetcher, parse: Parser,
                    pageCache: map<string, Option<UrlResult>>, indexCache: map<string, Option<SourceMapIndex>>,
                    ghost start: seq<string>, ghost original: seq<Frame>)
    returns (pageCache': map<string, Option<UrlResult>>, indexCache': map<string, Option<SourceMapIndex>>)
    modifies frames, fetcher
    requires k < frames.Length == |original|
    requires PagesAgree(pageCache, fetcher.pages) && CallLog(fetcher.calls, start, pageCache.Keys)
    requires IndexesAgree(indexCache, fetcher.pages, parse, pageCache.Keys)
    requires pageCache.Keys == NeededAll(original[..k], fetcher.pages)
    requires frames[..k] == ExpandAll(original[..k], fetcher.pages, parse)
    requires frames[k..] == original[k..]
    ensures PagesAgree(pageCache', fetcher.pages) && CallLog(fetcher.calls, start, pageCache'.Keys)
    ensures IndexesAgree(indexCache', fetcher.pages, parse, pageCache'.Keys)
    ensures pageCache'.Keys == NeededAll(original[..k + 1], fetcher.pages)
    ensures frames[..k + 1] == ExpandAll(original[..k + 1], fetcher.pages, parse)
    ensures frames[k + 1..] == original[k + 1..]
  {
    var frame := frames[k];
    assert frame == original[k];
    NeededAllStep(original, k, fetcher.pages);
    ExpandAllStep(original, k, fetcher.pages, parse);
    ghost var done := frames[..k];
    var r;
    r, pageCache', indexCache' := ExpandOne(frame, fetcher, parse, pageCache, indexCache, start);
    frames[k] := r;
    assert frames[..k + 1] == done + [r];
  }

  /**
    `expand_javascript_source`: each frame, in order, is replaced by its
    expanded form, and the fetcher is asked for exactly the URLs the frames
    need, once each.
   */
  method ExpandJavascriptSource(frames: array<Frame>, fetcher: Fetcher, parse: Parser)
    modifies frames, fetcher
    ensures frames[..] == ExpandAll(old(frames[..]), fetcher.pages, parse)
    ensures old(fetcher.calls) <= fetcher.calls
    ensures NoDuplicates(fetcher.calls[|old(fetcher.calls)|..])
    ensures forall u :: u in fetcher.calls[|old(fetcher.calls)|..] <==> u in NeededAll(old(frames[..]), fetcher.pages)
  {
    ghost var start := fetcher.calls;
    ghost var original := frames[..];
    var pageCache: map<string, Option<UrlResult>> := map[];
    var indexCache: map<string, Option<SourceMapIndex>> := map[];
    var k := 0;
    while k < frames.Length
      invariant 0 <= k <= frames.Length
      invariant PagesAgree(pageCache, fetcher.pages) && CallLog(fetcher.calls, start, pageCache.Keys)
      invariant IndexesAgree(indexCache, fetcher.pages, parse, pageCache.Keys)
      invariant pageCache.Keys == NeededAll(original[..k], fetcher.pages)
      invariant frames[..k] == ExpandAll(original[..k], fetcher.pages, parse)
      invariant frames[k..] == original[k..]
    {
      pageCache, indexCache := ExpandSlot(frames, k, fetcher, parse, pageCache, indexCache, start, original);
      k := k + 1;
    }
    assert original[..k] == original;
    assert frames[..] == frames[..k];
    CallLogIsOnce(fetcher.calls, start, pageCache.Keys);
  }
}
