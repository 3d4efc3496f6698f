# JavaScript source-map resolution, modelled in Dafny

This project models the part of Sentry that turns a JavaScript stack trace
back into readable source (`sentry.tasks.fetch_source` with
`sentry.utils.sourcemaps`), as its tests in
`tests/sentry/tasks/fetch_source/tests.py` pin it down:

- `discover_sourcemap` finds the source map reference of a fetched script.
  It looks at the `x-sourcemap` header, then the `sourcemap` header, then
  the last `//# sourceMappingURL=` or `//@ sourceMappingURL=` line
  (`Discovery.dfy`).
- `fetch_sourcemap` decodes a map given as a `data:` URI.
  - The URI follows RFC 2397 section 3 (`DataUri.dfy`).
  - Its base64 payload follows RFC 4648 section 4 (`Base64.dfy`).
  - The document's `mappings` use the Base64 VLQ segments of the Source Map
    Revision 3 proposal (`Vlq.dfy`, `Sourcemaps.dfy`).
  - The result is a `SourceMapIndex`: states, keys, sources and inlined
    content (`Sourcemaps.dfy`).
  - An encoder writes states grouped by generated line back as `mappings`
    text. Decoding that text gives exactly those states back, which fixes
    every value the decoder produces (`MappingEncoding.dfy`).
- Index lookup finds the state with the greatest key at or before a
  position. There is a function for it and a binary-search method proved
  equal to it (`Sourcemaps.Resolve`, `Sourcemaps.Lookup`).
- `generate_module` makes a module name out of a URL (`ModuleNames.dfy`).
- Context slicing takes 3 lines before and 5 after, with no `pre_context`
  on the first line (`Context.dfy`).
- `expand_javascript_source` is an imperative pass over an array of frames
  (`FetchSource.dfy`).
  - A `Fetcher` object holds the pages and logs every URL it is asked for.
  - The pass keeps a page cache and an index cache.
  - It is proved to rewrite every frame as `ExpandFrame` specifies.
  - It is proved to ask the fetcher for exactly the URLs the frames need,
    each once.
- The test cases themselves are stated as lemmas and methods over the
  model.
  - `InlineMap.dfy` carries the test's base64 map.
  - `Examples.dfy` covers `FetchBase64SourcemapTest`,
    `ExpandJavascriptSourceTest.test_simple` and `test_inlined_sources`.
  - The `DiscoverSourcemapTest` and `GenerateModuleTest` cases sit at the end
    of their own files.

The JSON parser of map documents is a function parameter (`Parser`). The
fetch collaborator is a map from URL to `UrlResult`: a URL that is absent
is a failed fetch.

**Lookup position.** A frame is looked up at `(lineno, colno)` exactly as
the frame gives it. The frame at line 1, column 0 (tests.py:103-105) must
resolve to the only state, whose key is `(1, 0)` (tests.py:150). A
resolved frame gets `lineno := original line + 1` and
`colno := original column`.

## Model

| member | source | states |
|---|---|---|
| Discovery.DiscoverSourcemap | tests/sentry/tasks/fetch_source/tests.py:16-42 | the `x-sourcemap` header value wins, then `sourcemap`; no reference exactly when neither header is set and no body line is a map comment; a reference from a comment is a line's URL and has no newline |
| Discovery.CommentReference | tests/sentry/tasks/fetch_source/tests.py:32-42 | a line gives a reference exactly when it starts with `//# sourceMappingURL=` or `//@ sourceMappingURL=`, and the line is that prefix followed by the reference |
| Discovery.LastCommentSpec | tests/sentry/tasks/fetch_source/tests.py:32-42 | there is a comment reference exactly when some line is a map comment, and it is the reference of a map-comment line after which no line is one |
| Discovery.CommentLine | tests/sentry/tasks/fetch_source/tests.py:32-42 | a map comment prefix followed by a one-line URL is a single line that announces exactly that URL |
| Discovery.TrailingCommentWins | tests/sentry/tasks/fetch_source/tests.py:38-42 | a map comment appended as the last line of any body is the discovered reference |
| Discovery.LeadingCommentFound | tests/sentry/tasks/fetch_source/tests.py:32-36 | a map comment on the first line is found when no later line is a map comment |
| Discovery.DiscoverFromHeadersExamples | tests/sentry/tasks/fetch_source/tests.py:19-30 | the empty page has no reference; each header gives its value unchanged |
| Discovery.DiscoverFromCommentsExamples | tests/sentry/tasks/fetch_source/tests.py:32-42 | both comment spellings are found on the first and on the last line, giving only the URL |
| ModuleNames.GenerateModule | tests/sentry/tasks/fetch_source/tests.py:127-142 | the name is never empty, and no URL gives `<unknown module>` |
| ModuleNames.UrlPath | tests/sentry/tasks/fetch_source/tests.py:128-139 | the path of a URL is never longer than the URL |
| ModuleNames.UrlPathOfUrl | tests/sentry/tasks/fetch_source/tests.py:128-139 | for `<scheme>://<host><path>` the path is exactly `<path>` |
| ModuleNames.UrlPathOfPath | tests/sentry/tasks/fetch_source/tests.py:140-142 | a string without `:` is its own path |
| ModuleNames.DropLeadingNoise | tests/sentry/tasks/fetch_source/tests.py:130-139 | at least the file piece is kept, and never more pieces than given |
| ModuleNames.DropLeadingNoiseSpec | tests/sentry/tasks/fetch_source/tests.py:130-139 | what is kept is a suffix of the pieces, every dropped piece is skippable, and the first kept piece is not skippable unless it is the file |
| ModuleNames.ModuleOfPath | tests/sentry/tasks/fetch_source/tests.py:127-142 | the module name of a path is never empty |
| ModuleNames.LeadingSegmentIgnored | tests/sentry/tasks/fetch_source/tests.py:130-141 | a skippable leading directory, the empty piece before `/` included, does not change the module name |
| ModuleNames.NoiseDirectoriesDropped | tests/sentry/tasks/fetch_source/tests.py:130-139 | any run of skippable leading directories leaves the module name of the rest |
| ModuleNames.HostIgnored | tests/sentry/tasks/fetch_source/tests.py:128-139 | scheme and host in front of a root-relative path do not change its module name |
| ModuleNames.DirectoryKept | tests/sentry/tasks/fetch_source/tests.py:129 | a meaningful directory stays in front of the file's stem, joined with `/` |
| ModuleNames.SingleSegment | tests/sentry/tasks/fetch_source/tests.py:128 | a bare file name is named by its stem, or is the unknown module when the stem is empty |
| ModuleNames.StripExtensionOf | tests/sentry/tasks/fetch_source/tests.py:128-129 | the text after the last dot of a file name is dropped |
| ModuleNames.StripHashSuffixOf | tests/sentry/tasks/fetch_source/tests.py:142 | a trailing `-<hash>` of 7, 32 or 40 hex digits is dropped |
| ModuleNames.StripHashSuffixNone | tests/sentry/tasks/fetch_source/tests.py:128-129 | a file name without `-` keeps its name |
| ModuleNames.RelativePathsAgree | tests/sentry/tasks/fetch_source/tests.py:140-141 | `/<tail>` and `../<tail>` get the same module name |
| ModuleNames.RootedPath | tests/sentry/tasks/fetch_source/tests.py:140 | `/<tail>` is named by `<tail>` |
| ModuleNames.ClimbingPath | tests/sentry/tasks/fetch_source/tests.py:141 | `../<tail>` is named by `<tail>` |
| ModuleNames.HashedFileModule | tests/sentry/tasks/fetch_source/tests.py:142 | `/<dir>/<stem>-<hash>.<ext>` is named `<dir>/<stem>` |
| ModuleNames.GenerateModuleFooExample | tests/sentry/tasks/fetch_source/tests.py:127-128 | no URL names `<unknown module>`; `http://example.com/foo.js` names `foo` |
| ModuleNames.GenerateModuleFooBarExample | tests/sentry/tasks/fetch_source/tests.py:129 | `http://example.com/foo/bar.js` names `foo/bar` |
| ModuleNames.GenerateModuleNoiseExample | tests/sentry/tasks/fetch_source/tests.py:130-139 | each single tested noise directory (`js`, `javascript`, `1.0`, `v1`, `v1.0.0`, `_baz`, the 7-, 40- and 32-digit hashes) before `foo/bar.js` is dropped; the nested `1/2/3` case of line 136 is `GenerateModuleNestedVersionsExample` |
| ModuleNames.NoiseBeforeFooBar | tests/sentry/tasks/fetch_source/tests.py:130-139 | any skippable directory between the host and `foo/bar.js` gives `foo/bar` |
| ModuleNames.GenerateModuleNestedVersionsExample | tests/sentry/tasks/fetch_source/tests.py:136 | `http://example.com/1/2/3/foo/bar.js` names `foo/bar` |
| ModuleNames.GenerateModuleRootedExample | tests/sentry/tasks/fetch_source/tests.py:140 | `/foo/bar.js` names `foo/bar` |
| ModuleNames.GenerateModuleClimbingExample | tests/sentry/tasks/fetch_source/tests.py:141 | `../../foo/bar.js` names `foo/bar` |
| ModuleNames.GenerateModuleHashSuffixExample | tests/sentry/tasks/fetch_source/tests.py:142 | `/foo/bar-7d6d00eae0ceccdc7ee689659585d95f.js` names `foo/bar` |
| Base64.CharOf | tests/sentry/tasks/fetch_source/tests.py:13 | every 6-bit value has a character of the base64 alphabet |
| Base64.SextetOf | tests/sentry/tasks/fetch_source/tests.py:13 | reading an alphabet character gives the value that writes it back |
| Base64.SextetOfCharOf | tests/sentry/tasks/fetch_source/tests.py:13 | writing a 6-bit value and reading it back gives the value |
| Base64.Decode | tests/sentry/tasks/fetch_source/tests.py:13 | decoding succeeds exactly on well-formed base64 text, giving 3 bytes per group less the padding |
| Base64.DecodeGroups | tests/sentry/tasks/fetch_source/tests.py:13 | the same, group by group |
| Base64.Encode | tests/sentry/tasks/fetch_source/tests.py:13 | the encoding has whole groups of 4 and is empty only for no bytes |
| Base64.DecodeEncode | tests/sentry/tasks/fetch_source/tests.py:13 | decoding the encoding of any bytes gives them back |
| Base64.EncodeIsBase64Text | tests/sentry/tasks/fetch_source/tests.py:13 | every encoding is well-formed base64 text |
| Base64.EncodeAppend | tests/sentry/tasks/fetch_source/tests.py:13 | bytes cut at a multiple of 3 encode piece by piece |
| Base64.TripleRoundTrip | tests/sentry/tasks/fetch_source/tests.py:13 | one group of 3 bytes decodes back to them |
| Base64.PairRoundTrip | tests/sentry/tasks/fetch_source/tests.py:13 | a final pair of bytes, padded with one `=`, decodes back to them |
| Base64.SingleRoundTrip | tests/sentry/tasks/fetch_source/tests.py:13 | a final single byte, padded with `==`, decodes back to it |
| DataUri.AsciiText | tests/sentry/tasks/fetch_source/tests.py:13 | bytes are text exactly when all are below 128, and the text gives the bytes back |
| DataUri.AsciiTextOfBytes | tests/sentry/tasks/fetch_source/tests.py:13 | ASCII text turned into bytes and back is unchanged |
| DataUri.DecodeDataUri | tests/sentry/tasks/fetch_source/tests.py:13 | anything not starting with `data:` is rejected, so is a URI without `,`; a URI decodes only when the header before its first `,` is `application/json` with `base64` as its last parameter, and decoded text is ASCII |
| DataUri.JsonPayload | tests/sentry/tasks/fetch_source/tests.py:13 | behind a JSON base64 header, a data URI decodes exactly as its payload does |
| DataUri.DataUriRoundTrip | tests/sentry/tasks/fetch_source/tests.py:13 | `data:<header>,<base64 of text>` decodes to the text for every JSON base64 header |
| DataUri.JsonDataUriRoundTrip | tests/sentry/tasks/fetch_source/tests.py:13 | the same for the header `application/json;base64` |
| DataUri.EncodePieces | tests/sentry/tasks/fetch_source/tests.py:13 | text cut into pieces of whole groups encodes as the pieces' encodings joined |
| InlineMap.PayloadEncodesDocument | tests/sentry/tasks/fetch_source/tests.py:13 | the test's payload is exactly the base64 encoding of the map document's JSON text |
| InlineMap.InlineMapDecodes | tests/sentry/tasks/fetch_source/tests.py:13 | the test's data URI decodes to that JSON text |
| Vlq.DecodeDigits | tests/sentry/tasks/fetch_source/tests.py:147-153 | a VLQ number uses at least one and at most all characters; empty input is a truncation error and a non-alphabet first character an invalid digit |
| Vlq.EncodeDigits | tests/sentry/tasks/fetch_source/tests.py:147-153 | a VLQ number is written with at least one alphabet character |
| Vlq.ToRaw | tests/sentry/tasks/fetch_source/tests.py:147-153 | the sign-in-lowest-bit form reads back as the value, and is odd exactly for negatives |
| Vlq.RawOfValue | tests/sentry/tasks/fetch_source/tests.py:147-153 | every raw form except negative zero is the form of its value |
| Vlq.DecodeEncodeDigits | tests/sentry/tasks/fetch_source/tests.py:147-153 | a written VLQ number reads back, whatever follows it |
| Vlq.DecodeValues | tests/sentry/tasks/fetch_source/tests.py:147-153 | a segment has at most as many values as characters, and the empty segment has none |
| Vlq.EncodeValues | tests/sentry/tasks/fetch_source/tests.py:147-153 | only no values give the empty segment |
| Vlq.DecodeEncodeValues | tests/sentry/tasks/fetch_source/tests.py:147-153 | any values written as a segment read back |
| Vlq.ZeroSegment | tests/sentry/tasks/fetch_source/tests.py:147-149 | `AAAA` is the four values 0, 0, 0, 0 |
| Sourcemaps.DecodeSegment | tests/sentry/tasks/fetch_source/tests.py:147-153 | VLQ errors pass through; only 1, 4 or 5 fields are accepted; the segment decodes exactly when the column delta is not negative and, with a source, the new source index is inside `sources`, the original line and column stay non-negative and any new name index is inside `names`; the state's column is the cursor's plus the first delta, its source index, original line, original column and name index are the cursor's plus the other deltas (name and cursor kept when absent), and the next cursor holds those values |
| Sourcemaps.DecodeLine | tests/sentry/tasks/fetch_source/tests.py:147-153 | one state per non-empty segment, all on the cursor's line, ordered, at or after the starting column, naming listed sources and names |
| Sourcemaps.DecodeLines | tests/sentry/tasks/fetch_source/tests.py:147-153 | the states of the lines are ordered, name listed sources and fall on those lines, and the cursor ends one line per `;`-separated line further |
| Sourcemaps.DecodeMappings | tests/sentry/tasks/fetch_source/tests.py:147-153 | decoded states are ordered by generated position and name listed sources; `MappingEncoding.MappingsRoundTrip` pins every value |
| Sourcemaps.SecondLineState | tests/sentry/tasks/fetch_source/tests.py:147-149 | an empty generated line 0 and one all-zero segment give the single state `(1, 0, src, 0, 0, None)` |
| Sourcemaps.SingleStateMappings | tests/sentry/tasks/fetch_source/tests.py:147-149 | `;AAAA` against one source gives the single state `(1, 0, src, 0, 0, None)` |
| Sourcemaps.KeysOf | tests/sentry/tasks/fetch_source/tests.py:147-153 | the keys are the states' generated positions, one per state |
| Sourcemaps.ContentOfKeys | tests/sentry/tasks/fetch_source/tests.py:151-153 | a source has inlined content exactly when one of its `sourcesContent` slots holds text |
| Sourcemaps.ContentOfLast | tests/sentry/tasks/fetch_source/tests.py:151-153 | a source's content is its last text slot split into lines |
| Sourcemaps.BuildIndex | tests/sentry/tasks/fetch_source/tests.py:147-153 | mapping errors pass through; otherwise the states are the decoded ones, the index is valid (keys mirror states and are sorted, sources are those named), content is the inlined text, and every source is listed in the document |
| Sourcemaps.IndexText | tests/sentry/tasks/fetch_source/tests.py:147-153 | text the parser rejects is `InvalidJson`; otherwise the index of the parsed document |
| Sourcemaps.FetchSourcemap | tests/sentry/tasks/fetch_source/tests.py:147-153 | data URI errors and parser rejections are reported, and any index is valid |
| Sourcemaps.SingleStateIndex | tests/sentry/tasks/fetch_source/tests.py:147-153 | the one-source `;AAAA` document with one inlined line gives states `[(1,0,src,0,0,None)]`, keys `[(1,0)]`, sources `{src}`, content `{src: [text]}` |
| Sourcemaps.LastAtOrBefore | tests/sentry/tasks/fetch_source/tests.py:103-105 | no position exactly when every key is after the query; otherwise a key at or before the query with every later key after it |
| Sourcemaps.GreatestAtOrBefore | tests/sentry/tasks/fetch_source/tests.py:103-105 | over sorted keys, a key is at or before the query exactly when it is at or before the position found |
| Sourcemaps.LookupMonotonic | tests/sentry/tasks/fetch_source/tests.py:103-105 | a later query never finds an earlier position |
| Sourcemaps.Bisect | tests/sentry/tasks/fetch_source/tests.py:103-105 | binary search over sorted keys finds exactly that position |
| Sourcemaps.Resolve | tests/sentry/tasks/fetch_source/tests.py:103-105 | the state found is in the index at or before the query and its key is the greatest of all states at or before it; there is none exactly when every state is after the query |
| Sourcemaps.Lookup | tests/sentry/tasks/fetch_source/tests.py:103-105 | the binary-search lookup finds exactly that state |
| Sourcemaps.FoundIsGreatest | tests/sentry/tasks/fetch_source/tests.py:103-105 | the state at the position the lookup finds has the greatest key of all states at or before the query |
| MappingEncoding.SegmentRoundTrip | tests/sentry/tasks/fetch_source/tests.py:147-153 | a state written as a segment of differences from the cursor reads back as that state, with the cursor moved to it |
| MappingEncoding.OneFieldSegment | tests/sentry/tasks/fetch_source/tests.py:147-153 | a one-field segment reads back a state without source or name at the cursor's original position |
| MappingEncoding.SourceSegment | tests/sentry/tasks/fetch_source/tests.py:147-153 | a four- or five-field segment reads back the state's source, original line and column, and name |
| MappingEncoding.SegmentsRoundTrip | tests/sentry/tasks/fetch_source/tests.py:147-153 | the segments written for the states of one line read back as those states, one per segment, in order |
| MappingEncoding.LineRoundTrip | tests/sentry/tasks/fetch_source/tests.py:147-153 | a written line, split at `,`, reads back as its states and holds no `;` |
| MappingEncoding.LinesRoundTrip | tests/sentry/tasks/fetch_source/tests.py:147-153 | written lines read back as the states of every line in order, the column starting again at 0 on each line |
| MappingEncoding.MappingsRoundTrip | tests/sentry/tasks/fetch_source/tests.py:147-153 | decoding the `mappings` written for states grouped by generated line gives exactly those states, every field restored |
| Context.SourceLines | tests/sentry/tasks/fetch_source/tests.py:75 | a body has at least one line, and its lines joined with `\n` give it back |
| Context.ContextAt | tests/sentry/tasks/fetch_source/tests.py:83-90 | no context exactly past the last line; the context line is line `i`; `pre_context` is absent exactly on line 0 and otherwise the up to 3 lines before; `post_context` is the up to 5 lines after |
| Context.ContextIsWindow | tests/sentry/tasks/fetch_source/tests.py:83-90 | the lines shown are one contiguous run of the source around line `i` |
| Context.HelloWorldLines | tests/sentry/tasks/fetch_source/tests.py:75 | `'\n'.join('hello world')` splits back into its eleven one-character lines |
| Context.FourthLineContext | tests/sentry/tasks/fetch_source/tests.py:83-85 | line index 3 of `hello world` has `pre_context` `h e l`, line `l`, `post_context` `o ␣ w o r` |
| Context.FirstLineContext | tests/sentry/tasks/fetch_source/tests.py:87-90 | line index 0 has no `pre_context`, line `h`, `post_context` `e l l o ␣` |
| Context.OnlyLineContext | tests/sentry/tasks/fetch_source/tests.py:120-122 | a one-line source gives its line with nothing before or after |
| FetchSource.LoadIndex | tests/sentry/tasks/fetch_source/tests.py:112-122 | a loaded index is valid |
| FetchSource.LoadIndexOk | tests/sentry/tasks/fetch_source/tests.py:112-122 | a data URI loads exactly when `fetch_sourcemap` decodes it, giving the same index; any other reference loads exactly when it was fetched and its body indexes |
| FetchSource.WithRawContext | tests/sentry/tasks/fetch_source/tests.py:73-90 | the frame is unchanged, or gets the context of the fetched file around its 1-based `lineno` |
| FetchSource.ExpandFrame | tests/sentry/tasks/fetch_source/tests.py:77-90 | `abs_path` is kept; a changed frame has context; a frame without `abs_path`, or whose fetch fails, is unchanged |
| FetchSource.UnmappedFrame | tests/sentry/tasks/fetch_source/tests.py:73-90 | without a map, the frame keeps every field but its context, which comes from the file's own lines; only the file is needed |
| FetchSource.MappedFrame | tests/sentry/tasks/fetch_source/tests.py:112-122 | through a map whose state at the frame's position has inlined text, the frame moves to the original line and column, its file and module become the module name of the source, its context is that source's text around the line, and it needs its file and any map named by URL |
| FetchSource.MapNotLoaded | tests/sentry/tasks/fetch_source/tests.py:73-90 | a file that names a map which does not load is expanded as if it had no map: every field but the context is kept, and the context comes from the file's own lines |
| FetchSource.MapDoesNotPlace | tests/sentry/tasks/fetch_source/tests.py:112-122 | when the map loads but the frame has no usable position, no state is at or before it, or the state has no inlined line, the frame keeps every field but its context, which comes from the file's own lines |
| FetchSource.CallLogIsOnce | tests/sentry/tasks/fetch_source/tests.py:79 | a call log lists each of its URLs exactly once |
| FetchSource.CallLogAppend | tests/sentry/tasks/fetch_source/tests.py:79 | a call for a URL not yet logged keeps the log duplicate-free |
| FetchSource.Fetcher.Fetch | tests/sentry/tasks/fetch_source/tests.py:47 | one fetch appends its URL to the log and gives that URL's page, or nothing |
| FetchSource.CachedFetch | tests/sentry/tasks/fetch_source/tests.py:79 | the page is what the fetcher gives, the URL joins the cache, and the call log still holds each cached URL exactly once |
| FetchSource.ResolveFrame | tests/sentry/tasks/fetch_source/tests.py:112-122 | the binary-search resolution of a frame is exactly `ExpandWith` |
| FetchSource.CachedIndex | tests/sentry/tasks/fetch_source/tests.py:112-116 | the index is what the reference loads; the caches stay faithful; only a map named by URL is fetched |
| FetchSource.ExpandPage | tests/sentry/tasks/fetch_source/tests.py:112-122 | a fetched frame is expanded as `ExpandFetched` says, fetching only its map URL if any |
| FetchSource.ExpandOne | tests/sentry/tasks/fetch_source/tests.py:77-90 | one frame is expanded as `ExpandFrame` says, and the cache grows by exactly the URLs it needs |
| FetchSource.ExpandAllPointwise | tests/sentry/tasks/fetch_source/tests.py:77-90 | expanding a list of frames expands each frame in its own slot |
| FetchSource.ExpandSlot | tests/sentry/tasks/fetch_source/tests.py:77-90 | one loop step keeps the pass's invariant: frames before the slot are expanded, the rest untouched, the log holds exactly the URLs needed so far |
| FetchSource.ExpandJavascriptSource | tests/sentry/tasks/fetch_source/tests.py:77-90 | the frames are rewritten in place to their expanded forms; the fetcher is asked for exactly the URLs the frames need, each once |
| FetchSourceExamples.InlineIndex | tests/sentry/tasks/fetch_source/tests.py:147-153 | a data URI carrying the one-source document decodes to its one-state index |
| FetchSourceExamples.FetchInlineMap | tests/sentry/tasks/fetch_source/tests.py:147-153 | `fetch_sourcemap(base64_sourcemap)` is the index with state `(1,0,'/test.js',0,0,None)`, key `(1,0)`, source `/test.js` and content `['console.log("hello, World!")']` |
| FetchSourceExamples.OnlyCall | tests/sentry/tasks/fetch_source/tests.py:79 | a duplicate-free log holding one URL and nothing else is exactly that one call |
| FetchSourceExamples.ShortLinesHaveNoMap | tests/sentry/tasks/fetch_source/tests.py:73 | a page without headers whose lines are all shorter than a map comment has no map |
| FetchSourceExamples.HelloWorldPage | tests/sentry/tasks/fetch_source/tests.py:73-75 | the `hello world` page has no map and splits into its eleven lines |
| FetchSourceExamples.SimpleFrame | tests/sentry/tasks/fetch_source/tests.py:73-90 | a frame in a file without a map gets the file's lines around its `lineno` and needs only that file |
| FetchSourceExamples.SimplePassResult | tests/sentry/tasks/fetch_source/tests.py:56-90 | the frames at lines 4 and 1 of one file get the context around lines 3 and 0, and the pass needs only that file |
| FetchSourceExamples.SimplePass | tests/sentry/tasks/fetch_source/tests.py:50-90 | `test_simple`: `foo.js` is fetched exactly once, and the two frames get `h e l / l / o ␣ w o r` and `none / h / e l l o ␣` |
| FetchSourceExamples.InlinedMapLoads | tests/sentry/tasks/fetch_source/tests.py:112-116 | the header names the data URI, which needs no fetch and loads as the one-state index |
| FetchSourceExamples.OneStateResolves | tests/sentry/tasks/fetch_source/tests.py:103-105 | line 1, column 0 resolves to the single state with key `(1, 0)` |
| FetchSourceExamples.InlinedFrame | tests/sentry/tasks/fetch_source/tests.py:112-122 | the frame at line 1, column 0 shows the one inlined line with nothing around it, and needs only its file |
| FetchSourceExamples.InlinedPassResult | tests/sentry/tasks/fetch_source/tests.py:112-122 | the one-frame pass gives that context and needs only the file |
| FetchSourceExamples.InlinedPass | tests/sentry/tasks/fetch_source/tests.py:95-122 | `test_inlined_sources`: `test.js` is fetched exactly once, and its frame's context is `console.log("hello, World!")` with no `pre_context` or `post_context` |

## Left out

- Parsing the JSON map document is left to the `Parser` parameter. Its
  result is a record with `sources`, `names`, `mappings` and optional
  `sourcesContent`. Only the base64, VLQ and index-building steps are
  modelled.
- The network is left out. `fetch_url` is a fixed map from URL to
  `UrlResult`, where a missing URL is a failed fetch, and each call is
  logged.
- `Event.update` and the nesting of frames inside the event payload are
  left out. The pass works on the frame array directly.
- In `test_inlined_sources`, the test replaces `discover_sourcemap` with a
  stub that returns the base64 map. The model gets the same reference from
  an `x-sourcemap` header. `test_simple` stubs `fetch_sourcemap` to return
  nothing; with no map discovered, that stub is never consulted.
- FetchSource.WithMappedContext: a mapped source whose text is not inlined
  is not fetched. Its URL would be resolved against the map's own URL and
  `sourceRoot`, and no test pins that behaviour. The frame falls back to
  the fetched file's own lines.
- DataUri.DecodeDataUri: a payload that decodes to bytes of 128 or more is
  rejected. UTF-8 decoding is not modelled, and the tested payload is
  ASCII.
- Vlq.DecodeDigits: values are unbounded integers. The numeric-width limit
  on continuation runs is not modelled.
- Sourcemaps.DecodeSegment:
  - Segments of 2, 3 or 6 and more fields are rejected.
  - A negative generated-column delta is rejected, so keys are always
    sorted for the binary search.
  - Neither rule is pinned by a test.
- Discovery.DiscoverSourcemap: header names match exactly as written, in
  lower case. Case-insensitive header lookup is not modelled.
- Discovery results are recomputed per frame rather than cached. Discovery
  is a pure function of the page, so this changes no result and no fetch.
- Concurrency and cancellation are not modelled. The pass is sequential.
- Frames without a usable `lineno` (absent or below 1) keep their fields,
  as a fetch failure does.
- ModuleNames.UrlPath: the query string and fragment of a URL stay in its
  path. No test URL carries one.
- ModuleNames.StripHashSuffixOf: only hashes of exactly 7, 32 or 40 hex
  digits are stripped, the lengths the tests use.
- ModuleNames.DropLeadingNoise: only leading directories are dropped. A
  version or hash directory after a meaningful one stays, and no test has
  one there.
- Discovery.CommentReference: a map comment must start its line, and
  lines are not trimmed. Every test comment starts its line.
