/**
  The lines shown around a stack frame: the line itself, up to three
  before it and up to five after it, taken from a source split on `\n`.
 */
module Context {
  import opened Results
  import opened Text

  const LinesBefore: nat := 3
  const LinesAfter: nat := 5

  /**
    `pre_context`, `context_line` and `post_context` together, so a frame
    has all three or none. `pre` is absent for the first line of a file.
   */
  datatype SourceContext = SourceContext(pre: Option<seq<string>>, line: string, post: seq<string>)

  function Min(a: int, b: int): int
  {
    if a < b then a else b
  }

  /** The lines of a source text. */
  function SourceLines(body: string): (lines: seq<string>)
    ensures |lines| >= 1
    ensures Join(lines, '\n') == body
  {
    JoinSplit(body, '\n');
    Split(body, '\n')
  }

  /** The context around 0-based line `i`, or none when the source has no such line. */
  function ContextAt(lines: seq<string>, i: nat): (r: Option<SourceContext>)
    ensures r.None? <==> i >= |lines|
    ensures r.Some? ==> r.value.line == lines[i]
    ensures r.Some? ==> (r.value.pre.None? <==> i == 0)
    ensures r.Some? && r.value.pre.Some? ==>
      |r.value.pre.value| == Min(LinesBefore, i) && r.value.pre.value == lines[i - |r.value.pre.value|..i]
    ensures r.Some? ==>
      |r.value.post| == Min(LinesAfter, |lines| - i - 1) && r.value.post == lines[i + 1..i + 1 + |r.value.post|]
  {
    if i >= |lines| then None
    else
      var lo := if i < LinesBefore then 0 else i - LinesBefore;
      var hi := if |lines| - i - 1 < LinesAfter then |lines| else i + 1 + LinesAfter;
      var pre := if i == 0 then None else Some(lines[lo..i]);
      Some(SourceContext(pre, lines[i], lines[i + 1..hi]))
  }

  /** Everything a context shows, in order. */
  function Shown(c: SourceContext): seq<string>
  {
    (if c.pre.Some? then c.pre.value else []) + [c.line] + c.post
  }

  /**
    The shown lines are one contiguous run of the source around line `i`,
    as long as the source allows: 3 lines above and 5 below.
   */
  lemma ContextIsWindow(lines: seq<string>, i: nat)
    requires i < |lines|
    ensures var lo := i - Min(LinesBefore, i);
      var hi := i + 1 + Min(LinesAfter, |lines| - i - 1);
      Shown(ContextAt(lines, i).value) == lines[lo..hi]
  {
    var c := ContextAt(lines, i).value;
    var lo := i - Min(LinesBefore, i);
    var hi := i + 1 + Min(LinesAfter, |lines| - i - 1);
    assert lines[lo..hi] == lines[lo..i] + [lines[i]] + lines[i + 1..hi];
  }

  /** The source of the tests: `hello world`, one character per line. */
  predicate IsHelloWorld(lines: seq<string>)
  {
    |lines| == 11 && lines[0] == "h" && lines[1] == "e" && lines[2] == "l" && lines[3] == "l"
    && lines[4] == "o" && lines[5] == " " && lines[6] == "w" && lines[7] == "o" && lines[8] == "r"
    && lines[9] == "l" && lines[10] == "d"
  }

  /** Splitting the joined lines of `hello world` gives them back. */
  lemma HelloWorldLines(lines: seq<string>)
    requires IsHelloWorld(lines)
    ensures SourceLines(Join(lines, '\n')) == lines
  {
    forall k | 0 <= k < |lines|
      ensures '\n' !in lines[k]
    {
    }
    SplitJoin(lines, '\n');
  }

  /** Line 4 (index 3) shows `h`, `e`, `l` before it and five lines after it. */
  lemma FourthLineContext(lines: seq<string>)
    requires IsHelloWorld(lines)
    ensures ContextAt(lines, 3) == Some(SourceContext(Some(["h", "e", "l"]), "l", ["o", " ", "w", "o", "r"]))
  {
    assert lines[0..3] == ["h", "e", "l"];
    assert lines[4..9] == ["o", " ", "w", "o", "r"];
  }

  /** Line 1 (index 0) shows nothing before it. */
  lemma FirstLineContext(lines: seq<string>)
    requires IsHelloWorld(lines)
    ensures ContextAt(lines, 0) == Some(SourceContext(None, "h", ["e", "l", "l", "o", " "]))
  {
    assert lines[1..6] == ["e", "l", "l", "o", " "];
  }

  /** A one-line source shows only that line. */
  lemma OnlyLineContext(text: string)
    requires '\n' !in text
    ensures ContextAt(SourceLines(text), 0) == Some(SourceContext(None, text, []))
  {
    SplitNoSep(text, '\n');
  }
}
