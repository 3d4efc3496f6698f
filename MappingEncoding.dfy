/**
  The inverse of the `mappings` decoder: states written back as VLQ
  segments, `,` between the segments of a generated line and `;` between
  lines. Decoding what this writes gives the states back, which pins down
  every value the decoder produces, not only the shape of its result.
 */
module MappingEncoding {
  import opened Results
  import opened Text
  import opened Base64
  import opened Vlq
  import opened Sourcemaps

  /** The position of the first occurrence of `x` in `xs`. */
  function PositionIn(xs: seq<string>, x: string): (i: nat)
    requires x in xs
    ensures i < |xs| && xs[i] == x
  {
    if xs[0] == x then 0 else 1 + PositionIn(xs[1..], x)
  }

  /**
    A state can be written at the cursor: it is on the cursor's line, not
    before its column, names listed sources and names only, and a state
    without a source carries the original position reached so far and no
    name (a one-field segment can say nothing else).
   */
  predicate Fits(e: MappingEntry, cur: Cursor, doc: MapDocument)
  {
    e.dstLine == cur.line && cur.col <= e.dstCol
    && (e.src.None? ==> e.name.None? && e.srcLine == cur.srcLine && e.srcCol == cur.srcCol)
    && (e.src.Some? ==> e.src.value in doc.sources)
    && (e.name.Some? ==> e.name.value in doc.names)
  }

  /** The cursor after a state has been written or read. */
  function After(cur: Cursor, e: MappingEntry, doc: MapDocument): Cursor
    requires Fits(e, cur, doc)
  {
    if e.src.None? then cur.(col := e.dstCol)
    else
      var name := if e.name.Some? then PositionIn(doc.names, e.name.value) else cur.name;
      Cursor(cur.line, e.dstCol, PositionIn(doc.sources, e.src.value), e.srcLine, e.srcCol, name)
  }

  /** The fields of the segment for a state: differences from the cursor. */
  function SegmentValues(e: MappingEntry, cur: Cursor, doc: MapDocument): seq<int>
    requires Fits(e, cur, doc)
  {
    if e.src.None? then [e.dstCol - cur.col]
    else
      var head := [e.dstCol - cur.col, PositionIn(doc.sources, e.src.value) - cur.source,
                   e.srcLine - cur.srcLine, e.srcCol - cur.srcCol];
      if e.name.None? then head else head + [PositionIn(doc.names, e.name.value) - cur.name]
  }

  function EncodeSegment(e: MappingEntry, cur: Cursor, doc: MapDocument): string
    requires Fits(e, cur, doc)
  {
    EncodeValues(SegmentValues(e, cur, doc))
  }

  /** A written segment is non-empty base64 text. */
  lemma SegmentText(e: MappingEntry, cur: Cursor, doc: MapDocument)
    requires Fits(e, cur, doc)
    ensures EncodeSegment(e, cur, doc) != ""
    ensures ',' !in EncodeSegment(e, cur, doc) && ';' !in EncodeSegment(e, cur, doc)
  {
    EncodeValuesAlphabet(SegmentValues(e, cur, doc));
  }

  /** Reading a written segment gives the state back and moves the cursor as writing it did. */
  lemma SegmentRoundTrip(e: MappingEntry, cur: Cursor, doc: MapDocument)
    requires Fits(e, cur, doc)
    ensures DecodeSegment(EncodeSegment(e, cur, doc), cur, doc) == Ok((e, After(cur, e, doc)))
  {
    var vs := SegmentValues(e, cur, doc);
    DecodeEncodeValues(vs);
    if e.src.None? {
      OneFieldSegment(EncodeSegment(e, cur, doc), vs, e, cur, doc);
    } else {
      SourceSegment(EncodeSegment(e, cur, doc), vs, e, cur, doc);
    }
  }

  /** A state without a source is read back from its one field. */
  lemma OneFieldSegment(seg: string, vs: seq<int>, e: MappingEntry, cur: Cursor, doc: MapDocument)
    requires Fits(e, cur, doc) && e.src.None?
    requires vs == SegmentValues(e, cur, doc) && DecodeValues(seg) == Ok(vs)
    ensures DecodeSegment(seg, cur, doc) == Ok((e, After(cur, e, doc)))
  {
    assert vs == [e.dstCol - cur.col];
  }

  /** A state with a source is read back from its four or five fields. */
  lemma SourceSegment(seg: string, vs: seq<int>, e: MappingEntry, cur: Cursor, doc: MapDocument)
    requires Fits(e, cur, doc) && e.src.Some?
    requires vs == SegmentValues(e, cur, doc) && DecodeValues(seg) == Ok(vs)
    ensures DecodeSegment(seg, cur, doc) == Ok((e, After(cur, e, doc)))
  {
    var source := PositionIn(doc.sources, e.src.value);
    assert vs[..4] == [e.dstCol - cur.col, source - cur.source, e.srcLine - cur.srcLine, e.srcCol - cur.srcCol];
    if e.name.Some? {
      var name := PositionIn(doc.names, e.name.value);
      assert |vs| == 5 && vs[4] == name - cur.name;
    } else {
      assert |vs| == 4;
    }
  }

  /** The states of one line can be written one after another from the cursor. */
  predicate LineFits(es: seq<MappingEntry>, cur: Cursor, doc: MapDocument)
    decreases |es|
  {
    es == [] || (Fits(es[0], cur, doc) && LineFits(es[1..], After(cur, es[0], doc), doc))
  }

  /** The cursor after a whole line. */
  function AfterLine(es: seq<MappingEntry>, cur: Cursor, doc: MapDocument): Cursor
    requires LineFits(es, cur, doc)
    decreases |es|
  {
    if es == [] then cur else AfterLine(es[1..], After(cur, es[0], doc), doc)
  }

  /** The segments of one line. */
  function LineSegments(es: seq<MappingEntry>, cur: Cursor, doc: MapDocument): (segs: seq<string>)
    requires LineFits(es, cur, doc)
    ensures |segs| == |es|
    decreases |es|
  {
    if es == [] then [] else [EncodeSegment(es[0], cur, doc)] + LineSegments(es[1..], After(cur, es[0], doc), doc)
  }

  /** The text of one line: its segments separated by `,`. */
  function EncodeLine(es: seq<MappingEntry>, cur: Cursor, doc: MapDocument): string
    requires LineFits(es, cur, doc)
  {
    Join(LineSegments(es, cur, doc), ',')
  }

  /** Written segments are non-empty and hold neither separator. */
  lemma {:induction false} SegmentsText(es: seq<MappingEntry>, cur: Cursor, doc: MapDocument)
    requires LineFits(es, cur, doc)
    ensures forall i :: 0 <= i < |es| ==> var seg := LineSegments(es, cur, doc)[i];
      seg != "" && ',' !in seg && ';' !in seg
    decreases |es|
  {
    if es != [] {
      SegmentText(es[0], cur, doc);
      SegmentsText(es[1..], After(cur, es[0], doc), doc);
    }
  }

  /** Reading the segments of a written line gives its states back. */
  lemma {:induction false} SegmentsRoundTrip(es: seq<MappingEntry>, cur: Cursor, doc: MapDocument)
    requires LineFits(es, cur, doc)
    ensures DecodeLine(LineSegments(es, cur, doc), cur, doc) == Ok((es, AfterLine(es, cur, doc)))
    decreases |es|
  {
    if es != [] {
      var segs := LineSegments(es, cur, doc);
      var mid := After(cur, es[0], doc);
      assert segs[1..] == LineSegments(es[1..], mid, doc);
      SegmentsRoundTrip(es[1..], mid, doc);
      FirstSegment(es, cur, doc, segs, mid);
    }
  }

  /** A written line reads back once its first segment does and the rest of the line does. */
  lemma FirstSegment(es: seq<MappingEntry>, cur: Cursor, doc: MapDocument, segs: seq<string>, mid: Cursor)
    requires es != [] && LineFits(es, cur, doc)
    requires segs == LineSegments(es, cur, doc) && mid == After(cur, es[0], doc)
    requires DecodeLine(segs[1..], mid, doc) == Ok((es[1..], AfterLine(es[1..], mid, doc)))
    ensures DecodeLine(segs, cur, doc) == Ok((es, AfterLine(es, cur, doc)))
  {
    SegmentText(es[0], cur, doc);
    SegmentRoundTrip(es[0], cur, doc);
    SegmentStep(segs, cur, doc, es[0], mid, es[1..], AfterLine(es, cur, doc));
    assert [es[0]] + es[1..] == es;
  }

  /** One step of `DecodeLine` over a non-empty first segment, from the results of its two parts. */
  lemma SegmentStep(segs: seq<string>, cur: Cursor, doc: MapDocument,
                    e: MappingEntry, mid: Cursor, rest: seq<MappingEntry>, next: Cursor)
    requires segs != [] && segs[0] != ""
    requires DecodeSegment(segs[0], cur, doc) == Ok((e, mid))
    requires DecodeLine(segs[1..], mid, doc) == Ok((rest, next))
    ensures DecodeLine(segs, cur, doc) == Ok(([e] + rest, next))
  {
  }

  /** Reading a written line gives its states back; the line holds no `;`. */
  lemma LineRoundTrip(es: seq<MappingEntry>, cur: Cursor, doc: MapDocument)
    requires LineFits(es, cur, doc)
    ensures ';' !in EncodeLine(es, cur, doc)
    ensures DecodeLine(Split(EncodeLine(es, cur, doc), ','), cur, doc) == Ok((es, AfterLine(es, cur, doc)))
  {
    var segs := LineSegments(es, cur, doc);
    SegmentsText(es, cur, doc);
    JoinAvoids(segs, ',', ';');
    if es == [] {
      SplitNoSep("", ',');
    } else {
      SplitJoin(segs, ',');
    }
    SegmentsRoundTrip(es, cur, doc);
  }

  /** The cursor at the start of the next generated line. */
  function NextLine(c: Cursor): Cursor
  {
    c.(line := c.line + 1, col := 0)
  }

  /** Each group holds the states of one generated line, from the cursor's line on. */
  predicate LinesFit(groups: seq<seq<MappingEntry>>, cur: Cursor, doc: MapDocument)
    decreases |groups|
  {
    groups == [] ||
      (LineFits(groups[0], cur.(col := 0), doc)
       && LinesFit(groups[1..], NextLine(AfterLine(groups[0], cur.(col := 0), doc)), doc))
  }

  /** The texts of the lines. */
  function LineTexts(groups: seq<seq<MappingEntry>>, cur: Cursor, doc: MapDocument): (texts: seq<string>)
    requires LinesFit(groups, cur, doc)
    ensures |texts| == |groups|
    decreases |groups|
  {
    if groups == [] then []
    else
      var start := cur.(col := 0);
      [EncodeLine(groups[0], start, doc)] + LineTexts(groups[1..], NextLine(AfterLine(groups[0], start, doc)), doc)
  }

  /** The states of all lines, in order. */
  function Flatten(groups: seq<seq<MappingEntry>>): seq<MappingEntry>
    decreases |groups|
  {
    if groups == [] then [] else groups[0] + Flatten(groups[1..])
  }

  /** The `mappings` text of states grouped by generated line, from line 0. */
  function EncodeMappings(groups: seq<seq<MappingEntry>>, doc: MapDocument): string
    requires LinesFit(groups, Start, doc)
  {
    Join(LineTexts(groups, Start, doc), ';')
  }

  /** Written lines hold no `;`. */
  lemma {:induction false} LineTextsText(groups: seq<seq<MappingEntry>>, cur: Cursor, doc: MapDocument)
    requires LinesFit(groups, cur, doc)
    ensures forall i :: 0 <= i < |groups| ==> ';' !in LineTexts(groups, cur, doc)[i]
    decreases |groups|
  {
    if groups != [] {
      var start := cur.(col := 0);
      LineRoundTrip(groups[0], start, doc);
      LineTextsText(groups[1..], NextLine(AfterLine(groups[0], start, doc)), doc);
    }
  }

  /** Reading written lines gives back the states of every line, in order. */
  lemma {:induction false} LinesRoundTrip(groups: seq<seq<MappingEntry>>, cur: Cursor, doc: MapDocument)
    requires LinesFit(groups, cur, doc)
    ensures DecodeLines(LineTexts(groups, cur, doc), cur, doc).Ok?
    ensures DecodeLines(LineTexts(groups, cur, doc), cur, doc).value.0 == Flatten(groups)
    decreases |groups|
  {
    if groups != [] {
      var texts := LineTexts(groups, cur, doc);
      var start := cur.(col := 0);
      var mid := AfterLine(groups[0], start, doc);
      var nextStart := NextLine(mid);
      LineRoundTrip(groups[0], start, doc);
      assert texts[0] == EncodeLine(groups[0], start, doc);
      assert texts[1..] == LineTexts(groups[1..], nextStart, doc);
      LinesRoundTrip(groups[1..], nextStart, doc);
      var rest := DecodeLines(texts[1..], nextStart, doc).value;
      LinesStep(texts, cur, doc, start, groups[0], mid, nextStart, rest.0, rest.1);
    }
  }

  /**
    Decoding the `mappings` written for states grouped by generated line
    gives exactly those states: line `k` of the text carries the states of
    generated line `k`, each segment one state, with every field restored
    from the differences it holds.
   */
  lemma MappingsRoundTrip(groups: seq<seq<MappingEntry>>, doc: MapDocument)
    requires LinesFit(groups, Start, doc) && doc.mappings == EncodeMappings(groups, doc)
    ensures DecodeMappings(doc) == Ok(Flatten(groups))
  {
    var texts := LineTexts(groups, Start, doc);
    if groups == [] {
      assert doc.mappings == "";
      SplitNoSep("", ';');
      SplitNoSep("", ',');
      assert Start.(col := 0) == Start;
      assert DecodeLine(Split([""][0], ','), Start, doc) == Ok(([], Start));
      assert DecodeLines([""][1..], NextLine(Start), doc) == Ok(([], NextLine(Start)));
      LinesStep([""], Start, doc, Start, [], Start, NextLine(Start), [], NextLine(Start));
      var none: seq<MappingEntry> := [];
      assert none + none == none;
      assert Split(doc.mappings, ';') == [""];
      assert Flatten(groups) == [];
    } else {
      LineTextsText(groups, Start, doc);
      SplitJoin(texts, ';');
      LinesRoundTrip(groups, Start, doc);
    }
  }
}
