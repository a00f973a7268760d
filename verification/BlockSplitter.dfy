/** `splitBlocks`: from a text to its blocks, with their offsets. */
module BlockSplitter {
  import opened Splitting
  import opened MarkdownLines
  import opened BlockScan

  /** `sourceTo` ends the block's own text; `to` also takes the separators up to
      the next block. */
  datatype Block = Block(kind: Kind, from: nat, to: nat, sourceTo: nat, markdown: string)

  function BlockOf(lines: seq<string>, b: Span): Block
    requires b.first <= b.last < |lines|
  {
    var to := Start(lines, b.last) + |lines[b.last]|;
    Block(b.kind, Start(lines, b.first), to, to, Join(Cut(lines, b), '\n'))
  }

  predicate InRange(spans: seq<Span>, lines: seq<string>) {
    forall k :: 0 <= k < |spans| ==> spans[k].first <= spans[k].last < |lines|
  }

  function BlocksOf(lines: seq<string>, spans: seq<Span>): seq<Block>
    requires InRange(spans, lines)
  {
    seq(|spans|, k requires 0 <= k < |spans| => BlockOf(lines, spans[k]))
  }

  function Absorbed(blocks: seq<Block>, length: nat): seq<Block> {
    seq(|blocks|, k requires 0 <= k < |blocks| =>
      blocks[k].(to := if k + 1 < |blocks| then blocks[k + 1].from else length))
  }

  /** The blocks of a text. */
  function Blocks(content: string): seq<Block> {
    var lines := SplitOn(content, '\n');
    SpansInRange(lines);
    Absorbed(BlocksOf(lines, Spans(lines)), |content|)
  }

  lemma {:induction false} CoversInRange(spans: seq<Span>, lines: seq<string>, i: nat)
    requires i <= |lines| && Covers(spans, lines, i)
    ensures InRange(spans, lines)
    decreases |spans|
  {
    if spans != [] {
      CoversInRange(spans[1..], lines, spans[0].last + 1);
      forall k | 0 <= k < |spans| ensures spans[k].first <= spans[k].last < |lines| {
        assert k > 0 ==> spans[k] == spans[1..][k - 1];
      }
    }
  }

  lemma SpansInRange(lines: seq<string>)
    requires |lines| > 0
    ensures InRange(Spans(lines), lines)
  {
    SpansCover(lines);
    CoversInRange(Spans(lines), lines, 0);
  }

  // ------------------------------------------------------------ the program

  method LineStarts(lines: seq<string>) returns (starts: seq<nat>)
    ensures |starts| == |lines| && forall i :: 0 <= i < |lines| ==> starts[i] == Start(lines, i)
  {
    starts := [];
    var offset := 0;
    while |starts| < |lines|
      invariant |starts| <= |lines| && offset == Start(lines, |starts|)
      invariant forall i :: 0 <= i < |starts| ==> starts[i] == Start(lines, i)
    {
      var line := lines[|starts|];
      starts := starts + [offset];
      offset := offset + |line| + 1;
    }
  }

  method TrimTrailingBlank(lines: seq<string>, start: nat, end: nat) returns (nextEnd: nat)
    requires start <= end < |lines|
    ensures nextEnd == Trimmed(lines, start, end)
  {
    nextEnd := end;
    while nextEnd > start && IsBlank(lines[nextEnd])
      invariant start <= nextEnd <= end && Trimmed(lines, start, nextEnd) == Trimmed(lines, start, end)
    {
      nextEnd := nextEnd - 1;
    }
  }

  function CreateBlock(kind: Kind, lines: seq<string>, starts: seq<nat>, startLine: nat, endLine: nat): (b: Block)
    requires |starts| == |lines| && forall i :: 0 <= i < |lines| ==> starts[i] == Start(lines, i)
    requires startLine <= endLine < |lines|
    ensures b == BlockOf(lines, Span(kind, startLine, endLine))
  {
    var to := starts[endLine] + |lines[endLine]|;
    Block(kind, starts[startLine], to, to, Join(lines[startLine..endLine + 1], '\n'))
  }

  /** One of the five loops: the lines the branch `s` runs over. */
  method RunOver(s: Shape, lines: seq<string>, from: nat) returns (index: nat)
    requires from <= |lines|
    ensures index == End(s, lines, from)
  {
    index := from;
    while index < |lines| && Continues(s, lines, index)
      invariant from <= index <= |lines| && End(s, lines, index) == End(s, lines, from)
    {
      index := index + 1;
    }
  }

  method FindFrontmatter(lines: seq<string>) returns (end: nat)
    requires |lines| > 0
    ensures end == FrontmatterEnd(lines)
  {
    end := 0;
    if lines[0] == "---" {
      var i := 1;
      while i < |lines| && lines[i] != "---"
        invariant 1 <= i <= |lines| && IndexFrom(lines, i) == IndexFrom(lines, 1)
      {
        i := i + 1;
      }
      end := if i < |lines| then i else 0;
    }
  }

  /** The block that starts at a non-blank line, branch by branch. */
  method NextBlock(lines: seq<string>, start: nat) returns (kind: Kind, last: nat, index: nat)
    requires start < |lines|
    ensures Span(kind, start, last) == SpanAt(lines, start) && index == Next(lines, start)
  {
    if IsFenceStart(lines[start]) {
      index := RunOver(Fence, lines, start + 1);
      if index < |lines| {
        index := index + 1;
      }
      return Code, index - 1, index;
    }
    if IsTableStart(lines, start) {
      index := RunOver(Grid, lines, start + 2);
      return Table, index - 1, index;
    }
    if IsListLine(lines[start]) {
      index := RunOver(Items, lines, start + 1);
      last := TrimTrailingBlank(lines, start, index - 1);
      return List, last, index;
    }
    if IsBlockquoteLine(lines[start]) {
      index := RunOver(Quote, lines, start + 1);
      last := TrimTrailingBlank(lines, start, index - 1);
      return Blockquote, last, index;
    }
    kind, last, index := NextPlainBlock(lines, start);
  }

  /** ... and its branches for headings, thematic breaks and paragraphs. */
  method NextPlainBlock(lines: seq<string>, start: nat) returns (kind: Kind, last: nat, index: nat)
    requires start < |lines| && !IsFenceStart(lines[start]) && !IsTableStart(lines, start)
    requires !IsListLine(lines[start]) && !IsBlockquoteLine(lines[start])
    ensures Span(kind, start, last) == SpanAt(lines, start) && index == Next(lines, start)
  {
    if IsAtxHeading(lines[start]) {
      return Heading, start, start + 1;
    }
    if start + 1 < |lines| && IsSetextUnderline(lines[start + 1]) {
      return Heading, start + 1, start + 2;
    }
    if IsThematicBreak(lines[start]) {
      return ThematicBreak, start, start + 1;
    }
    index := RunOver(Text, lines, start + 1);
    return Paragraph, index - 1, index;
  }

  /** What is left to scan after one more block, or one more blank line. */
  lemma ScanStep(lines: seq<string>, spans: seq<Span>, i: nat)
    requires i < |lines| && InRange(spans, lines)
    ensures var b := SpanAt(lines, i);
      if IsBlank(lines[i]) then spans + Scan(lines, i) == spans + Scan(lines, i + 1)
      else
        && spans + Scan(lines, i) == (spans + [b]) + Scan(lines, Next(lines, i))
        && InRange(spans + [b], lines)
        && BlocksOf(lines, spans + [b]) == BlocksOf(lines, spans) + [BlockOf(lines, b)]
  {
    if !IsBlank(lines[i]) {
      Regroup(spans, [SpanAt(lines, i)], Scan(lines, Next(lines, i)));
      OneMoreBlock(lines, spans, SpanAt(lines, i));
    }
  }

  lemma OneMoreBlock(lines: seq<string>, spans: seq<Span>, b: Span)
    requires InRange(spans, lines) && b.first <= b.last < |lines|
    ensures InRange(spans + [b], lines)
    ensures BlocksOf(lines, spans + [b]) == BlocksOf(lines, spans) + [BlockOf(lines, b)]
  {
  }

  method SplitBlocks(content: string) returns (blocks: seq<Block>)
    ensures blocks == Blocks(content)
  {
    var lines := SplitOn(content, '\n');
    var starts := LineStarts(lines);
    SpansInRange(lines);
    var index := FindFrontmatter(lines);
    blocks := [];
    ghost var spans := [];
    if index > 0 {
      blocks := [CreateBlock(Frontmatter, lines, starts, 0, index)];
      spans := [Span(Frontmatter, 0, index)];
      index := index + 1;
    }
    blocks, spans := Scanned(lines, starts, blocks, spans, index);
    blocks := Absorbed(blocks, |content|);
  }

  /** The main loop of splitBlocks; `spans` records the lines of the blocks. */
  method Scanned(lines: seq<string>, starts: seq<nat>, before: seq<Block>, ghost spansBefore: seq<Span>, from: nat)
    returns (blocks: seq<Block>, ghost spans: seq<Span>)
    requires |starts| == |lines| && forall i :: 0 <= i < |lines| ==> starts[i] == Start(lines, i)
    requires from <= |lines| && InRange(spansBefore, lines) && before == BlocksOf(lines, spansBefore)
    ensures spans == spansBefore + Scan(lines, from)
    ensures InRange(spans, lines) && blocks == BlocksOf(lines, spans)
  {
    blocks, spans := before, spansBefore;
    var index := from;
    while index < |lines|
      invariant 0 <= index <= |lines|
      invariant spansBefore + Scan(lines, from) == spans + Scan(lines, index)
      invariant InRange(spans, lines) && blocks == BlocksOf(lines, spans)
    {
      ScanStep(lines, spans, index);
      if IsBlank(lines[index]) {
        index := index + 1;
      } else {
        var kind, last, next := NextBlock(lines, index);
        spans := spans + [Span(kind, index, last)];
        blocks := blocks + [CreateBlock(kind, lines, starts, index, last)];
        index := next;
      }
    }
  }

  /** `getSplitBlocks`: the cache never shows. */
  class SplitCache {
    var content: string
    var blocks: seq<Block>
    var filled: bool

    predicate Valid()
      reads this
    {
      filled ==> blocks == Blocks(content)
    }

    constructor ()
      ensures Valid()
    {
      content, blocks, filled := "", [], false;
    }

    method GetSplitBlocks(text: string) returns (r: seq<Block>)
      requires Valid()
      modifies this
      ensures Valid() && r == Blocks(text)
    {
      if filled && content == text {
        return blocks;
      }
      content, filled := text, true;
      blocks := SplitBlocks(text);
      return blocks;
    }
  }
}
