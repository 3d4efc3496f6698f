/**
  Source map documents and the index built from them
  (`sentry.utils.sourcemaps`): the `mappings` field is decoded into one
  state per segment, and the index keeps those states with their
  generated positions as sorted lookup keys, the sources they refer to
  and the inlined source texts split into lines.
 */
module Sourcemaps {
  import opened Results
  import opened Text
  import opened Vlq
  import opened DataUri

  /**
    The fields of a parsed source map document that the index needs;
    `sourcesContent` is aligned with `sources` and may hold nulls.
   */
  datatype MapDocument = MapDocument(
    sources: seq<string>,
    names: seq<string>,
    mappings: string,
    sourcesContent: Option<seq<Option<string>>>)

  /**
    One state: a generated position and, when the segment names one, the
    original source, position and symbol. A one-field segment carries the
    original position reached so far but no source or name.
   */
  datatype MappingEntry = MappingEntry(
    dstLine: nat, dstCol: nat,
    src: Option<string>, srcLine: nat, srcCol: nat,
    name: Option<string>)

  /** The running values while decoding: the current generated line and column and the four accumulated fields. */
  datatype Cursor = Cursor(line: nat, col: nat, source: nat, srcLine: nat, srcCol: nat, name: nat)

  const Start := Cursor(0, 0, 0, 0, 0, 0)

  type Key = (nat, nat)

  function KeyOf(e: MappingEntry): Key
  {
    (e.dstLine, e.dstCol)
  }

  /** Lexicographic order over (line, column). */
  predicate KeyLe(a: Key, b: Key)
  {
    a.0 < b.0 || (a.0 == b.0 && a.1 <= b.1)
  }

  predicate SortedKeys(keys: seq<Key>)
  {
    forall i, j :: 0 <= i < j < |keys| ==> KeyLe(keys[i], keys[j])
  }

  predicate Ordered(es: seq<MappingEntry>)
  {
    forall i, j :: 0 <= i < j < |es| ==> KeyLe(KeyOf(es[i]), KeyOf(es[j]))
  }

  /** Every source and name an entry carries is one the document lists. */
  predicate Resolved(es: seq<MappingEntry>, doc: MapDocument)
  {
    forall e :: e in es ==>
      (e.src.Some? ==> e.src.value in doc.sources) && (e.name.Some? ==> e.name.value in doc.names)
  }

  /**
    One segment at the cursor. It has 1, 4 or 5 fields; the first moves the
    generated column forward within the line, the others move the source
    index, original line, original column and name index. Indices must fall
    inside `sources` and `names` and positions must stay non-negative.
   */
  function DecodeSegment(seg: string, cur: Cursor, doc: MapDocument): (r: Result<(MappingEntry, Cursor), DecodeError>)
    ensures DecodeValues(seg).Err? ==> r == Err(DecodeValues(seg).error)
    ensures r.Ok? ==> DecodeValues(seg).Ok? && |DecodeValues(seg).value| in {1, 4, 5}
    ensures r.Ok? ==> var (e, next) := r.value;
      e.dstLine == cur.line == next.line && cur.col <= e.dstCol == next.col
      && (e.src.Some? ==> e.src.value in doc.sources) && (e.name.Some? ==> e.name.value in doc.names)
      && e.srcLine == next.srcLine && e.srcCol == next.srcCol
      && (e.src.None? <==> |DecodeValues(seg).value| == 1)
    ensures DecodeValues(seg).Ok? && |DecodeValues(seg).value| !in {1, 4, 5} ==> r == Err(BadFieldCount)
    ensures DecodeValues(seg).Ok? && |DecodeValues(seg).value| in {1, 4, 5} ==>
      var vs := DecodeValues(seg).value;
      (r.Ok? <==>
        0 <= vs[0] && (|vs| == 1 || (0 <= cur.source + vs[1] < |doc.sources|
          && 0 <= cur.srcLine + vs[2] && 0 <= cur.srcCol + vs[3]
          && (|vs| == 5 ==> 0 <= cur.name + vs[4] < |doc.names|))))
    ensures r.Ok? ==> var vs := DecodeValues(seg).value; var (e, next) := r.value;
      e.dstCol == cur.col + vs[0]
      && (|vs| == 1 ==> next == cur.(col := e.dstCol) && e.srcLine == cur.srcLine && e.srcCol == cur.srcCol && e.name.None?)
      && (|vs| >= 4 ==>
            next.source == cur.source + vs[1] && next.srcLine == cur.srcLine + vs[2] && next.srcCol == cur.srcCol + vs[3]
            && next.source < |doc.sources| && e.src == Some(doc.sources[next.source]))
      && (|vs| == 4 ==> next.name == cur.name && e.name.None?)
      && (|vs| == 5 ==> next.name == cur.name + vs[4] && next.name < |doc.names| && e.name == Some(doc.names[next.name]))
  {
    match DecodeValues(seg)
    case Err(e) => Err(e)
    case Ok(vs) =>
      if |vs| != 1 && |vs| != 4 && |vs| != 5 then Err(BadFieldCount)
      else if vs[0] < 0 then Err(ColumnBackwards)
      else
        var col := cur.col + vs[0];
        if |vs| == 1 then
          Ok((MappingEntry(cur.line, col, None, cur.srcLine, cur.srcCol, None), cur.(col := col)))
        else
          var source := cur.source + vs[1];
          var srcLine := cur.srcLine + vs[2];
          var srcCol := cur.srcCol + vs[3];
          if !(0 <= source < |doc.sources|) then Err(SourceOutOfRange)
          else if srcLine < 0 || srcCol < 0 then Err(NegativePosition)
          else if |vs| == 4 then
            var next := Cursor(cur.line, col, source, srcLine, srcCol, cur.name);
            Ok((MappingEntry(cur.line, col, Some(doc.sources[source]), srcLine, srcCol, None), next))
          else
            var name := cur.name + vs[4];
            if !(0 <= name < |doc.names|) then Err(NameOutOfRange)
            else
              var next := Cursor(cur.line, col, source, srcLine, srcCol, name);
              Ok((MappingEntry(cur.line, col, Some(doc.sources[source]), srcLine, srcCol, Some(doc.names[name])), next))
  }

  /** How many of the segments are not empty. */
  function SegmentCount(segs: seq<string>): nat
  {
    if segs == [] then 0 else (if segs[0] == "" then 0 else 1) + SegmentCount(segs[1..])
  }

  /** The segments of one generated line, in order; empty segments are skipped. */
  function DecodeLine(segs: seq<string>, cur: Cursor, doc: MapDocument): (r: Result<(seq<MappingEntry>, Cursor), DecodeError>)
    ensures r.Ok? ==> var (es, next) := r.value;
      |es| == SegmentCount(segs) && next.line == cur.line && cur.col <= next.col
      && Ordered(es) && Resolved(es, doc)
      && (forall e :: e in es ==> e.dstLine == cur.line && cur.col <= e.dstCol <= next.col)
    decreases |segs|
  {
    if segs == [] then Ok(([], cur))
    else if segs[0] == "" then DecodeLine(segs[1..], cur, doc)
    else match DecodeSegment(segs[0], cur, doc)
      case Err(err) => Err(err)
      case Ok((e, mid)) =>
        match DecodeLine(segs[1..], mid, doc)
        case Err(err) => Err(err)
        case Ok((es, next)) => Ok(([e] + es, next))
  }

  /**
    The lines of `mappings` from the cursor's line on. The generated column
    starts again at 0 on every line; the other fields carry over.
   */
  function DecodeLines(lines: seq<string>, cur: Cursor, doc: MapDocument): (r: Result<(seq<MappingEntry>, Cursor), DecodeError>)
    ensures r.Ok? ==> var (es, next) := r.value;
      next.line == cur.line + |lines| && Ordered(es) && Resolved(es, doc)
      && (forall e :: e in es ==> cur.line <= e.dstLine < cur.line + |lines|)
    decreases |lines|
  {
    if lines == [] then Ok(([], cur))
    else match DecodeLine(Split(lines[0], ','), cur.(col := 0), doc)
      case Err(err) => Err(err)
      case Ok((first, mid)) =>
        match DecodeLines(lines[1..], mid.(line := mid.line + 1, col := 0), doc)
        case Err(err) => Err(err)
        case Ok((rest, next)) =>
          assert forall i, j :: 0 <= i < |first| <= j < |first + rest| ==>
            KeyLe(KeyOf((first + rest)[i]), KeyOf((first + rest)[j])) by {
            forall i, j | 0 <= i < |first| <= j < |first + rest|
              ensures KeyLe(KeyOf((first + rest)[i]), KeyOf((first + rest)[j]))
            {
              assert (first + rest)[i] in first;
              assert (first + rest)[j] in rest;
            }
          }
          Ok((first + rest, next))
  }

  /** All states of a document, generated line by generated line. */
  function DecodeMappings(doc: MapDocument): (r: Result<seq<MappingEntry>, DecodeError>)
    ensures r.Ok? ==> Ordered(r.value) && Resolved(r.value, doc)
  {
    match DecodeLines(Split(doc.mappings, ';'), Start, doc)
    case Err(err) => Err(err)
    case Ok((es, _)) => Ok(es)
  }

  /** `;` followed by one line without `;` is an empty line and that line. */
  lemma LeadingEmptyLine(m: string, line: string)
    requires m == ";" + line && ';' !in line
    ensures Split(m, ';') == ["", line]
  {
    assert m == "" + [';'] + line;
    SplitAppend("", ';', line);
    SplitNoSep("", ';');
    SplitNoSep(line, ';');
  }

  /** A segment of four zeros on line 1 of a one-source document, at the start of the stream. */
  lemma ZeroSegmentState(seg: string, doc: MapDocument, src: string)
    requires DecodeValues(seg) == Ok([0, 0, 0, 0]) && doc.sources == [src]
    ensures DecodeSegment(seg, Cursor(1, 0, 0, 0, 0, 0), doc)
      == Ok((MappingEntry(1, 0, Some(src), 0, 0, None), Cursor(1, 0, 0, 0, 0, 0)))
  {
  }

  /** A line holding one segment without `,`. */
  lemma OneSegmentLine(seg: string, cur: Cursor, doc: MapDocument, e: MappingEntry)
    requires seg != "" && ',' !in seg
    requires DecodeSegment(seg, cur, doc) == Ok((e, cur))
    ensures DecodeLine(Split(seg, ','), cur, doc) == Ok(([e], cur))
  {
    SplitNoSep(seg, ',');
    assert [e] + [] == [e];
  }

  /**
    An empty generated line 0 followed by one segment of four zeros on line
    1 gives the single state of line 1, mapped to the start of the source.
   */
  lemma SecondLineState(doc: MapDocument, src: string, seg: string)
    requires doc.sources == [src] && doc.mappings == ";" + seg
    requires seg != "" && ',' !in seg && ';' !in seg
    requires DecodeValues(seg) == Ok([0, 0, 0, 0])
    ensures DecodeMappings(doc) == Ok([MappingEntry(1, 0, Some(src), 0, 0, None)])
  {
    LeadingEmptyLine(doc.mappings, seg);
    EmptyThenZeroSegment(Split(doc.mappings, ';'), doc, src, seg);
  }

  /** The lines `""` and one segment of four zeros decode, from the start, to the one state of line 1. */
  lemma EmptyThenZeroSegment(lines: seq<string>, doc: MapDocument, src: string, seg: string)
    requires lines == ["", seg] && doc.sources == [src]
    requires seg != "" && ',' !in seg
    requires DecodeValues(seg) == Ok([0, 0, 0, 0])
    ensures DecodeLines(lines, Start, doc) == Ok(([MappingEntry(1, 0, Some(src), 0, 0, None)], Cursor(2, 0, 0, 0, 0, 0)))
  {
    var e := MappingEntry(1, 0, Some(src), 0, 0, None);
    var c1 := Cursor(1, 0, 0, 0, 0, 0);
    var c2 := Cursor(2, 0, 0, 0, 0, 0);
    SplitNoSep("", ',');
    assert DecodeLine(Split(lines[0], ','), Start, doc) == Ok(([], Start));
    ZeroSegmentState(seg, doc, src);
    OneSegmentLine(seg, c1, doc, e);
    assert lines[1..] == [seg];
    assert [e] + [] == [e] && [] + [e] == [e];
    assert DecodeLines(lines[1..], c1, doc) == Ok(([e], c2));
    LinesStep(lines, Start, doc, Start, [], Start, c1, [e], c2);
  }

  /** Decoding `;AAAA` against one source gives the single state of generated line 1. */
  lemma SingleStateMappings(doc: MapDocument, src: string)
    requires doc.sources == [src] && doc.mappings == ";AAAA"
    ensures DecodeMappings(doc) == Ok([MappingEntry(1, 0, Some(src), 0, 0, None)])
  {
    var seg := doc.mappings[1..];
    SemicolonZeroSegment(doc.mappings, seg);
    SecondLineState(doc, src, seg);
  }

  /** `;AAAA` is `;` and then one segment of four zeros. */
  lemma SemicolonZeroSegment(m: string, seg: string)
    requires m == ";AAAA" && seg == m[1..]
    ensures m == ";" + seg && seg != "" && ',' !in seg && ';' !in seg
    ensures DecodeValues(seg) == Ok([0, 0, 0, 0])
  {
    assert seg == "AAAA";
    ZeroSegment(seg);
  }

  /** One step of `DecodeLines`, from the results of its two parts. */
  lemma LinesStep(lines: seq<string>, cur: Cursor, doc: MapDocument, lineStart: Cursor,
                  first: seq<MappingEntry>, mid: Cursor, nextStart: Cursor, rest: seq<MappingEntry>, next: Cursor)
    requires lines != []
    requires lineStart == cur.(col := 0) && nextStart == mid.(line := mid.line + 1, col := 0)
    requires DecodeLine(Split(lines[0], ','), lineStart, doc) == Ok((first, mid))
    requires DecodeLines(lines[1..], nextStart, doc) == Ok((rest, next))
    ensures DecodeLines(lines, cur, doc) == Ok((first + rest, next))
  {
  }

  /** The index of a decoded document. */
  datatype SourceMapIndex = SourceMapIndex(
    states: seq<MappingEntry>,
    keys: seq<Key>,
    sources: set<string>,
    content: map<string, seq<string>>)

  function KeysOf(states: seq<MappingEntry>): (keys: seq<Key>)
    ensures |keys| == |states|
    ensures forall i :: 0 <= i < |states| ==> keys[i] == KeyOf(states[i])
  {
    seq(|states|, i requires 0 <= i < |states| => KeyOf(states[i]))
  }

  /** The sources the states refer to. */
  function SourcesOf(states: seq<MappingEntry>): set<string>
  {
    set e | e in states && e.src.Some? :: e.src.value
  }

  /**
    The index invariant: the keys mirror the states' generated positions
    and are sorted, and the sources are exactly those the states name.
   */
  predicate Valid(index: SourceMapIndex)
  {
    index.keys == KeysOf(index.states) && SortedKeys(index.keys)
    && index.sources == SourcesOf(index.states)
  }

  /**
    The inlined texts, each split into lines, keyed by the source in the
    same position; null slots are skipped and a later slot for the same
    source replaces an earlier one.
   */
  function ContentOf(sources: seq<string>, slots: seq<Option<string>>): map<string, seq<string>>
    requires |sources| == |slots|
    decreases |sources|
  {
    if |sources| == 0 then map[]
    else
      var n := |sources| - 1;
      var m := ContentOf(sources[..n], slots[..n]);
      if slots[n].Some? then m[sources[n] := Split(slots[n].value, '\n')] else m
  }

  /** A source has content exactly when some slot of it holds text. */
  lemma {:induction false} ContentOfKeys(sources: seq<string>, slots: seq<Option<string>>)
    requires |sources| == |slots|
    ensures forall s :: s in ContentOf(sources, slots) <==>
      exists i :: 0 <= i < |sources| && sources[i] == s && slots[i].Some?
    decreases |sources|
  {
    if |sources| > 0 {
      var n := |sources| - 1;
      var m := ContentOf(sources, slots);
      var m' := ContentOf(sources[..n], slots[..n]);
      ContentOfKeys(sources[..n], slots[..n]);
      forall s
        ensures s in m <==> exists i :: 0 <= i < |sources| && sources[i] == s && slots[i].Some?
      {
        if s in m {
          if !(slots[n].Some? && s == sources[n]) {
            assert s in m';
            var i :| 0 <= i < n && sources[..n][i] == s && slots[..n][i].Some?;
            assert sources[i] == s && slots[i].Some?;
          }
        }
        if exists i :: 0 <= i < |sources| && sources[i] == s && slots[i].Some? {
          var i :| 0 <= i < |sources| && sources[i] == s && slots[i].Some?;
          if i < n {
            assert sources[..n][i] == s && slots[..n][i].Some?;
          }
        }
      }
    }
  }

  /** The content of a source is the text of its last slot that holds one, split into lines. */
  lemma {:induction false} ContentOfLast(sources: seq<string>, slots: seq<Option<string>>, i: nat)
    requires |sources| == |slots| && i < |sources| && slots[i].Some? && LastSlotFor(sources, slots, i)
    ensures sources[i] in ContentOf(sources, slots)
    ensures ContentOf(sources, slots)[sources[i]] == Split(slots[i].value, '\n')
    decreases |sources|
  {
    var n := |sources| - 1;
    if i < n {
      assert sources[..n][i] == sources[i] && slots[..n][i] == slots[i];
      assert LastSlotFor(sources[..n], slots[..n], i);
      ContentOfLast(sources[..n], slots[..n], i);
    }
  }

  /** No later slot with text belongs to the same source as slot `i`. */
  predicate LastSlotFor(sources: seq<string>, slots: seq<Option<string>>, i: nat)
    requires |sources| == |slots| && i < |sources|
  {
    forall j :: i < j < |sources| && sources[j] == sources[i] ==> slots[j].None?
  }

  /** The `sourcesContent` of a document paired with its sources, up to the shorter of the two. */
  function InlineContent(doc: MapDocument): map<string, seq<string>>
  {
    match doc.sourcesContent
    case None => map[]
    case Some(slots) =>
      var n := if |slots| < |doc.sources| then |slots| else |doc.sources|;
      ContentOf(doc.sources[..n], slots[..n])
  }

  lemma OrderedKeys(states: seq<MappingEntry>)
    requires Ordered(states)
    ensures SortedKeys(KeysOf(states))
  {
  }

  /** The index of a parsed document; fails when its mappings do not decode. */
  function BuildIndex(doc: MapDocument): (r: Result<SourceMapIndex, DecodeError>)
    ensures DecodeMappings(doc).Err? ==> r == Err(DecodeMappings(doc).error)
    ensures DecodeMappings(doc).Ok? ==> r.Ok? && r.value.states == DecodeMappings(doc).value
    ensures r.Ok? ==> Valid(r.value) && r.value.content == InlineContent(doc)
    ensures r.Ok? ==> forall s :: s in r.value.sources ==> s in doc.sources
  {
    match DecodeMappings(doc)
    case Err(e) => Err(e)
    case Ok(states) =>
      OrderedKeys(states);
      Ok(SourceMapIndex(states, KeysOf(states), SourcesOf(states), InlineContent(doc)))
  }

  /**
    `fetch_sourcemap` for an inline map: the data URI's text, parsed, then
    indexed. The JSON parser is a parameter; a text it rejects is an
    error.
   */
  function FetchSourcemap(uri: string, parse: string -> Option<MapDocument>): (r: Result<SourceMapIndex, DecodeError>)
    ensures DecodeDataUri(uri).Err? ==> r == Err(DecodeDataUri(uri).error)
    ensures DecodeDataUri(uri).Ok? && parse(DecodeDataUri(uri).value).None? ==> r == Err(InvalidJson)
    ensures r.Ok? ==> Valid(r.value)
  {
    match DecodeDataUri(uri)
    case Err(e) => Err(e)
    case Ok(text) => IndexText(text, parse)
  }

  /** The index of a map document's text. */
  function IndexText(text: string, parse: string -> Option<MapDocument>): (r: Result<SourceMapIndex, DecodeError>)
    ensures parse(text).None? ==> r == Err(InvalidJson)
    ensures parse(text).Some? ==> r == BuildIndex(parse(text).value)
    ensures r.Ok? ==> Valid(r.value)
  {
    match parse(text)
    case None => Err(InvalidJson)
    case Some(doc) => BuildIndex(doc)
  }

  /** The index of a one-source document mapped by `;AAAA`, with that source's text inlined. */
  lemma SingleStateIndex(doc: MapDocument, src: string, text: string)
    requires doc == MapDocument([src], [], ";AAAA", Some([Some(text)]))
    requires '\n' !in text
    ensures BuildIndex(doc) == Ok(SourceMapIndex(
      [MappingEntry(1, 0, Some(src), 0, 0, None)], [(1, 0)], {src}, map[src := [text]]))
  {
    SingleStateMappings(doc, src);
    var states := [MappingEntry(1, 0, Some(src), 0, 0, None)];
    assert KeysOf(states) == [(1, 0)];
    assert SourcesOf(states) == {src};
    SplitNoSep(text, '\n');
    var m := ContentOf([src], [Some(text)]);
    assert LastSlotFor([src], [Some(text)], 0);
    ContentOfKeys([src], [Some(text)]);
    ContentOfLast([src], [Some(text)], 0);
    assert m.Keys == {src};
    assert InlineContent(doc) == m;
  }

  /**
    The position of the last key at or before `q`, or none when every key
    is after it.
   */
  function LastAtOrBefore(keys: seq<Key>, q: Key): (r: Option<nat>)
    ensures r.None? <==> forall j :: 0 <= j < |keys| ==> !KeyLe(keys[j], q)
    ensures r.Some? ==>
      (r.value < |keys| && KeyLe(keys[r.value], q) && forall j :: r.value < j < |keys| ==> !KeyLe(keys[j], q))
    decreases |keys|
  {
    if |keys| == 0 then None
    else if KeyLe(keys[|keys| - 1], q) then Some(|keys| - 1)
    else LastAtOrBefore(keys[..|keys| - 1], q)
  }

  /**
    Over sorted keys the keys at or before `q` are exactly a prefix, so the
    position found holds the greatest of them.
   */
  lemma GreatestAtOrBefore(keys: seq<Key>, q: Key)
    requires SortedKeys(keys)
    ensures var r := LastAtOrBefore(keys, q);
      forall j :: 0 <= j < |keys| ==> (KeyLe(keys[j], q) <==> (r.Some? && j <= r.value))
  {
  }

  /** A later query never finds an earlier position. */
  lemma LookupMonotonic(keys: seq<Key>, q1: Key, q2: Key)
    requires KeyLe(q1, q2)
    ensures LastAtOrBefore(keys, q1).Some? ==>
      (LastAtOrBefore(keys, q2).Some? && LastAtOrBefore(keys, q1).value <= LastAtOrBefore(keys, q2).value)
  {
    var r1 := LastAtOrBefore(keys, q1);
    if r1.Some? {
      assert KeyLe(keys[r1.value], q2);
    }
  }

  /** Binary search for the last key at or before `q`. */
  method Bisect(keys: seq<Key>, q: Key) returns (r: Option<nat>)
    requires SortedKeys(keys)
    ensures r == LastAtOrBefore(keys, q)
  {
    var lo, hi := 0, |keys|;
    while lo < hi
      invariant 0 <= lo <= hi <= |keys|
      invariant forall j :: 0 <= j < lo ==> KeyLe(keys[j], q)
      invariant forall j :: hi <= j < |keys| ==> !KeyLe(keys[j], q)
      decreases hi - lo
    {
      var mid := (lo + hi) / 2;
      if KeyLe(keys[mid], q) {
        lo := mid + 1;
      } else {
        hi := mid;
      }
    }
    var spec := LastAtOrBefore(keys, q);
    if lo == 0 {
      r := None;
    } else {
      r := Some(lo - 1);
      assert spec.Some? && spec.value == lo - 1 by {
        assert KeyLe(keys[lo - 1], q);
      }
    }
  }

  /** The state for a generated position: the one with the greatest key at or before it. */
  function Resolve(index: SourceMapIndex, line: nat, col: nat): (r: Option<MappingEntry>)
    requires Valid(index)
    ensures r.Some? ==> r.value in index.states && KeyLe(KeyOf(r.value), (line, col))
    ensures r.None? <==> forall e :: e in index.states ==> !KeyLe(KeyOf(e), (line, col))
    ensures r.Some? ==> forall e :: e in index.states && KeyLe(KeyOf(e), (line, col)) ==> KeyLe(KeyOf(e), KeyOf(r.value))
  {
    match LastAtOrBefore(index.keys, (line, col))
    case None => None
    case Some(i) =>
      FoundIsGreatest(index, (line, col), i);
      Some(index.states[i])
  }

  /** The state at the position found has the greatest key of all states at or before the query. */
  lemma FoundIsGreatest(index: SourceMapIndex, q: Key, i: nat)
    requires Valid(index) && LastAtOrBefore(index.keys, q) == Some(i)
    ensures i < |index.states|
    ensures forall e :: e in index.states && KeyLe(KeyOf(e), q) ==> KeyLe(KeyOf(e), KeyOf(index.states[i]))
  {
    forall e | e in index.states && KeyLe(KeyOf(e), q)
      ensures KeyLe(KeyOf(e), KeyOf(index.states[i]))
    {
      var j :| 0 <= j < |index.states| && index.states[j] == e;
      assert index.keys[j] == KeyOf(e);
      if j < i {
        assert KeyLe(index.keys[j], index.keys[i]);
      }
    }
  }

  /** Looking a position up in an index by binary search over its keys. */
  method Lookup(index: SourceMapIndex, line: nat, col: nat) returns (r: Option<MappingEntry>)
    requires Valid(index)
    ensures r == Resolve(index, line, col)
  {
    var i := Bisect(index.keys, (line, col));
    if i.Some? {
      r := Some(index.states[i.value]);
    } else {
      r := None;
    }
  }
}
