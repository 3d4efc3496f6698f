/**
  `discover_sourcemap`: locate the source map that belongs to a fetched
  script, from its response headers or from a `sourceMappingURL` line
  comment in its body. Pure text and header inspection, no network.
 */
module Discovery {
  import opened Results
  import opened Text

  /**
    The outcome of one fetch: the URL, the response headers and the body.
    Header names are lower case, as the fetch layer stores them.
   */
  datatype UrlResult = UrlResult(url: string, headers: map<string, string>, body: string)

  const XSourceMapHeader: string := "x-sourcemap"
  const SourceMapHeader: string := "sourcemap"

  /** The two spellings of the map comment; both are 21 characters long. */
  const HashCommentPrefix: string := "//# sourceMappingURL="
  const AtCommentPrefix: string := "//@ sourceMappingURL="
  const CommentPrefixLength: nat := 21

  predicate HasHeader(headers: map<string, string>, name: string)
  {
    name in headers && headers[name] != ""
  }

  /** The map reference named by the headers, `x-sourcemap` first. */
  function HeaderReference(headers: map<string, string>): Option<string>
  {
    if HasHeader(headers, XSourceMapHeader) then Some(headers[XSourceMapHeader])
    else if HasHeader(headers, SourceMapHeader) then Some(headers[SourceMapHeader])
    else None
  }

  predicate IsMapComment(line: string)
  {
    StartsWith(line, HashCommentPrefix) || StartsWith(line, AtCommentPrefix)
  }

  /** The URL a single body line announces, if it is a map comment. */
  function CommentReference(line: string): (r: Option<string>)
    ensures r.Some? <==> IsMapComment(line)
    ensures r.Some? ==> line == line[..CommentPrefixLength] + r.value
  {
    if IsMapComment(line) then Some(line[CommentPrefixLength..]) else None
  }

  /** The reference announced by the last map-comment line, if any. */
  function LastCommentReference(lines: seq<string>): Option<string>
  {
    if |lines| == 0 then None
    else
      var last := lines[|lines| - 1];
      if IsMapComment(last) then CommentReference(last) else LastCommentReference(lines[..|lines| - 1])
  }

  /**
    There is a reference exactly when some line is a map comment, and it is
    the one of the last such line.
   */
  lemma {:induction false} LastCommentSpec(lines: seq<string>)
    ensures LastCommentReference(lines).None? <==> forall k :: 0 <= k < |lines| ==> !IsMapComment(lines[k])
    ensures LastCommentReference(lines).Some? ==>
      exists k :: 0 <= k < |lines| && CommentReference(lines[k]) == LastCommentReference(lines) &&
        forall j :: k < j < |lines| ==> !IsMapComment(lines[j])
  {
    if |lines| > 0 {
      var n := |lines| - 1;
      var r := LastCommentReference(lines);
      if IsMapComment(lines[n]) {
        assert CommentReference(lines[n]) == r;
      } else {
        var init := lines[..n];
        LastCommentSpec(init);
        assert r == LastCommentReference(init);
        assert forall k :: 0 <= k < n ==> init[k] == lines[k];
        if r.Some? {
          var k :| 0 <= k < |init| && CommentReference(init[k]) == r &&
            forall j :: k < j < |init| ==> !IsMapComment(init[j]);
          assert CommentReference(lines[k]) == r;
        }
      }
    }
  }

  /**
    The source map reference of a fetched script: the `x-sourcemap` header,
    else the `sourcemap` header, else the URL of the last
    `//# sourceMappingURL=` or `//@ sourceMappingURL=` line of the body,
    taken up to the end of that line.
   */
  function DiscoverSourcemap(result: UrlResult): (r: Option<string>)
    ensures HasHeader(result.headers, XSourceMapHeader) ==>
      r == Some(result.headers[XSourceMapHeader])
    ensures !HasHeader(result.headers, XSourceMapHeader) && HasHeader(result.headers, SourceMapHeader) ==>
      r == Some(result.headers[SourceMapHeader])
    ensures r.None? <==>
      !HasHeader(result.headers, XSourceMapHeader) && !HasHeader(result.headers, SourceMapHeader) &&
      forall line :: line in Split(result.body, '\n') ==> !IsMapComment(line)
    ensures r.Some? && HeaderReference(result.headers).None? ==>
      '\n' !in r.value &&
      exists line :: line in Split(result.body, '\n') && CommentReference(line) == r
  {
    match HeaderReference(result.headers)
    case Some(ref) => Some(ref)
    case None =>
      var lines := Split(result.body, '\n');
      LastCommentSpec(lines);
      LastCommentReference(lines)
  }

  /** A map comment written on a line of its own announces exactly its URL. */
  lemma CommentLine(prefix: string, ref: string)
    requires prefix == HashCommentPrefix || prefix == AtCommentPrefix
    requires '\n' !in ref
    ensures '\n' !in prefix + ref
    ensures CommentReference(prefix + ref) == Some(ref)
  {
    var line := prefix + ref;
    assert line[..|prefix|] == prefix;
    assert line[CommentPrefixLength..] == ref;
    assert '\n' !in prefix;
  }

  /** Appending a map comment as the final line makes it the discovered reference. */
  lemma TrailingCommentWins(url: string, body: string, prefix: string, ref: string)
    requires prefix == HashCommentPrefix || prefix == AtCommentPrefix
    requires '\n' !in ref
    ensures DiscoverSourcemap(UrlResult(url, map[], body + "\n" + (prefix + ref))) == Some(ref)
  {
    var line := prefix + ref;
    CommentLine(prefix, ref);
    SplitAppend(body, '\n', line);
    SplitNoSep(line, '\n');
    var lines := Split(body + "\n" + line, '\n');
    assert lines[|lines| - 1] == line;
  }

  /** A map comment on the first line is found when no later line is one. */
  lemma LeadingCommentFound(url: string, prefix: string, ref: string, rest: string)
    requires prefix == HashCommentPrefix || prefix == AtCommentPrefix
    requires '\n' !in ref
    requires forall line :: line in Split(rest, '\n') ==> !IsMapComment(line)
    ensures DiscoverSourcemap(UrlResult(url, map[], prefix + ref + "\n" + rest)) == Some(ref)
  {
    var line := prefix + ref;
    CommentLine(prefix, ref);
    SplitAppend(line, '\n', rest);
    SplitNoSep(line, '\n');
    var lines := Split(line + "\n" + rest, '\n');
    assert lines == [line] + Split(rest, '\n');
    var r := LastCommentReference(lines);
    LastCommentSpec(lines);
    assert IsMapComment(lines[0]);
    assert forall j :: 0 < j < |lines| ==> lines[j] in Split(rest, '\n');
    var k :| 0 <= k < |lines| && CommentReference(lines[k]) == r &&
      forall j :: k < j < |lines| ==> !IsMapComment(lines[j]);
    assert k == 0;
  }

  /** The header and empty-body cases of `DiscoverSourcemapTest.test_simple`. */
  lemma DiscoverFromHeadersExamples()
    ensures DiscoverSourcemap(UrlResult("http://example.com", map[], "")) == None
    ensures DiscoverSourcemap(UrlResult("http://example.com",
      map[XSourceMapHeader := "http://example.com/source.map.js"], "")) == Some("http://example.com/source.map.js")
    ensures DiscoverSourcemap(UrlResult("http://example.com",
      map[SourceMapHeader := "http://example.com/source.map.js"], "")) == Some("http://example.com/source.map.js")
  {
    assert Split("", '\n') == [""];
  }

  lemma MapUrlIsOneLine()
    ensures '\n' !in "http://example.com/source.map.js"
  {
  }

  /** The code line of the comment cases is a single plain line. */
  lemma PlainCodeLine()
    ensures forall line :: line in Split("console.log(true)", '\n') ==> !IsMapComment(line)
  {
    assert '\n' !in "console.log(true)";
    assert !IsMapComment("console.log(true)");
    SplitNoSep("console.log(true)", '\n');
  }

  /** The line-comment cases of `DiscoverSourcemapTest.test_simple`. */
  lemma DiscoverFromCommentsExamples()
    ensures DiscoverSourcemap(UrlResult("http://example.com", map[],
      AtCommentPrefix + "http://example.com/source.map.js" + "\n" + "console.log(true)")) == Some("http://example.com/source.map.js")
    ensures DiscoverSourcemap(UrlResult("http://example.com", map[],
      HashCommentPrefix + "http://example.com/source.map.js" + "\n" + "console.log(true)")) == Some("http://example.com/source.map.js")
    ensures DiscoverSourcemap(UrlResult("http://example.com", map[],
      "console.log(true)" + "\n" + (AtCommentPrefix + "http://example.com/source.map.js"))) == Some("http://example.com/source.map.js")
    ensures DiscoverSourcemap(UrlResult("http://example.com", map[],
      "console.log(true)" + "\n" + (HashCommentPrefix + "http://example.com/source.map.js"))) == Some("http://example.com/source.map.js")
  {
    MapUrlIsOneLine();
    PlainCodeLine();
    LeadingCommentFound("http://example.com", AtCommentPrefix, "http://example.com/source.map.js", "console.log(true)");
    LeadingCommentFound("http://example.com", HashCommentPrefix, "http://example.com/source.map.js", "console.log(true)");
    TrailingCommentWins("http://example.com", "console.log(true)", AtCommentPrefix, "http://example.com/source.map.js");
    TrailingCommentWins("http://example.com", "console.log(true)", HashCommentPrefix, "http://example.com/source.map.js");
  }
}
