/** What the live preview assumes of the blocks: they tile the text, each can be
    rendered alone, and the decorations show every position exactly once. */
module BlockTiling {
  import opened Basics
  import opened Splitting
  import opened MarkdownLines
  import opened BlockScan
  import opened BlockSplitter

  // ------------------------------------------------------------ tiling

  /** The blocks follow each other without gap or overlap up to the end of the
      text; what a block takes beyond its own source is white space, and so is
      everything before the first block. */
  predicate Tiles(blocks: seq<Block>, content: string) {
    && (forall k :: 0 <= k < |blocks| ==> TilesAt(blocks, content, k))
    && AllSpace(content[..if blocks == [] then |content| else Min(blocks[0].from, |content|)])
  }

  predicate TilesAt(blocks: seq<Block>, content: string, k: nat)
    requires k < |blocks|
  {
    var b := blocks[k];
    && b.from < b.sourceTo <= b.to <= |content|
    && b.to == (if k + 1 < |blocks| then blocks[k + 1].from else |content|)
    && b.markdown == content[b.from..b.sourceTo]
    && AllSpace(content[b.sourceTo..b.to])
  }

  function Min(a: nat, b: nat): nat {
    if a < b then a else b
  }

  lemma {:induction false} CoversAt(spans: seq<Span>, lines: seq<string>, i: nat, k: nat)
    requires i <= |lines| && Covers(spans, lines, i) && k < |spans|
    ensures InRange(spans, lines) && i <= spans[k].first && !IsBlank(lines[spans[k].first])
    ensures var next := if k + 1 < |spans| then spans[k + 1].first else |lines|;
      spans[k].last < next <= |lines| && BlankBetween(lines, spans[k].last + 1, next)
    ensures k == 0 ==> BlankBetween(lines, i, spans[0].first)
    decreases k
  {
    CoversInRange(spans, lines, i);
    if k > 0 {
      CoversAt(spans[1..], lines, spans[0].last + 1, k - 1);
    } else if |spans| > 1 {
      assert spans[1] == spans[1..][0];
    }
  }

  /** From the newline before line `a` to the start of line `b` there is only white space. */
  lemma {:induction false} BlankLinesAreSpace(lines: seq<string>, a: nat, b: nat, p: nat)
    requires |lines| > 0 && a <= b <= |lines| && BlankBetween(lines, a, b)
    requires Start(lines, a) <= p + 1 && p < Start(lines, b) && p < |Join(lines, '\n')|
    ensures IsSpace(Join(lines, '\n')[p])
  {
    CharAt(lines, p);
    var j := LineAt(lines, p);
    if p < Start(lines, j) + |lines[j]| {
      if j < a {
        StartMonotone(lines, j, a);
      }
      if b < j {
        StartMonotone(lines, b, j);
      }
      assert a <= j < b;
    }
  }

  lemma {:induction false} SpanSlice(lines: seq<string>, s: Span)
    requires s.first <= s.last < |lines| && !IsBlank(lines[s.first])
    ensures var text := Join(lines, '\n'); var b := BlockOf(lines, s);
      b.from < b.sourceTo <= |text| && b.markdown == text[b.from..b.sourceTo]
  {
    SliceOfLines(lines, s.first, s.last);
    SpanNotEmpty(lines, s);
  }

  lemma {:induction false} SpanNotEmpty(lines: seq<string>, s: Span)
    requires s.first <= s.last < |lines| && !IsBlank(lines[s.first])
    ensures Start(lines, s.first) < Start(lines, s.last) + |lines[s.last]|
  {
    assert lines[s.first] != "";
    if s.first < s.last {
      StartMonotone(lines, s.first, s.last);
    }
  }

  /** After line `last` there is only white space up to line `next` (or the end). */
  lemma {:induction false} GapIsSpace(lines: seq<string>, last: nat, next: nat, p: nat)
    requires last < next <= |lines| && BlankBetween(lines, last + 1, next)
    requires Start(lines, last) + |lines[last]| <= p < |Join(lines, '\n')| && p < Start(lines, next)
    ensures IsSpace(Join(lines, '\n')[p])
  {
    assert Start(lines, last + 1) == Start(lines, last) + |lines[last]| + 1;
    BlankLinesAreSpace(lines, last + 1, next, p);
  }

  /** One block and the white space up to the next block at line `next`. */
  lemma {:induction false} SpanTiles(lines: seq<string>, s: Span, next: nat)
    requires s.first <= s.last < next <= |lines| && !IsBlank(lines[s.first])
    requires BlankBetween(lines, s.last + 1, next)
    ensures var text := Join(lines, '\n'); var b := BlockOf(lines, s);
      var to := if next < |lines| then Start(lines, next) else |text|;
      && b.from < b.sourceTo <= to <= |text|
      && b.markdown == text[b.from..b.sourceTo]
      && AllSpace(text[b.sourceTo..to])
  {
    var text, b := Join(lines, '\n'), BlockOf(lines, s);
    var to := if next < |lines| then Start(lines, next) else |text|;
    JoinLength(lines);
    SpanSlice(lines, s);
    StartMonotone(lines, s.last, next);
    if next < |lines| {
      StartMonotone(lines, next, |lines|);
    }
    assert to <= |text| && to <= Start(lines, next);
    forall p | b.sourceTo <= p < to ensures IsSpace(text[p]) {
      GapIsSpace(lines, s.last, next, p);
    }
  }

  lemma {:induction false} CoveringTilesAt(lines: seq<string>, spans: seq<Span>, k: nat)
    requires |lines| > 0 && Covers(spans, lines, 0) && InRange(spans, lines) && k < |spans|
    ensures TilesAt(Absorbed(BlocksOf(lines, spans), |Join(lines, '\n')|), Join(lines, '\n'), k)
  {
    CoversAt(spans, lines, 0, k);
    SpanTiles(lines, spans[k], if k + 1 < |spans| then spans[k + 1].first else |lines|);
  }

  lemma {:induction false} CoveringTiles(lines: seq<string>, spans: seq<Span>)
    requires |lines| > 0 && Covers(spans, lines, 0) && InRange(spans, lines)
    ensures Tiles(Absorbed(BlocksOf(lines, spans), |Join(lines, '\n')|), Join(lines, '\n'))
  {
    var text := Join(lines, '\n');
    var blocks := Absorbed(BlocksOf(lines, spans), |text|);
    JoinLength(lines);
    forall k | 0 <= k < |blocks| ensures TilesAt(blocks, text, k) {
      CoveringTilesAt(lines, spans, k);
    }
    var end := if spans == [] then |lines| else spans[0].first;
    if spans != [] {
      CoversAt(spans, lines, 0, 0);
      assert blocks[0].from == Start(lines, end);
    }
    forall p | 0 <= p < |text| && p < Start(lines, end) ensures IsSpace(text[p]) {
      BlankLinesAreSpace(lines, 0, end, p);
    }
  }

  /** The splitter partitions every document. */
  lemma BlocksTile(content: string)
    ensures Tiles(Blocks(content), content)
  {
    var lines := SplitOn(content, '\n');
    JoinSplit(content, '\n');
    SpansCover(lines);
    SpansInRange(lines);
    CoveringTiles(lines, Spans(lines));
  }

  /** A document that opens with frontmatter is covered from its first character. */
  lemma {:induction false} FrontmatterFromZero(content: string)
    requires FrontmatterEnd(SplitOn(content, '\n')) > 0
    ensures Blocks(content) != [] && Blocks(content)[0].kind == Frontmatter && Blocks(content)[0].from == 0
  {
  }

  // ------------------------------------------------------------ rendering a block alone

  const DASHES := "---\n---"

  lemma CutIsText(lines: seq<string>, b: Span)
    requires b.first <= b.last < |lines| && AllWithout(lines, '\n')
    ensures SplitOn(Join(Cut(lines, b), '\n'), '\n') == Cut(lines, b)
    ensures Join(Cut(lines, b), '\n') == DASHES <==> Cut(lines, b) == [FENCE, FENCE]
  {
    var cut := Cut(lines, b);
    SplitJoin(cut, '\n');
    var two := [FENCE, FENCE];
    SplitJoin(two, '\n');
    assert two[1..] == [FENCE] && Join(two[1..], '\n') == FENCE;
    assert Join(two, '\n') == FENCE + ['\n'] + FENCE == DASHES;
  }

  /** The blocks of a text whose only span covers all of its lines. */
  lemma {:induction false} SingleBlock(lines: seq<string>, kind: Kind)
    requires |lines| > 0 && AllWithout(lines, '\n') && Spans(lines) == [Span(kind, 0, |lines| - 1)]
    ensures var text := Join(lines, '\n');
      Blocks(text) == [Block(kind, 0, |text|, |text|, text)]
  {
    var text := Join(lines, '\n');
    SplitJoin(lines, '\n');
    SpansInRange(lines);
    WholeBlock(lines, kind);
    assert BlocksOf(lines, Spans(lines)) == [BlockOf(lines, Span(kind, 0, |lines| - 1))];
  }

  lemma {:induction false} WholeBlock(lines: seq<string>, kind: Kind)
    requires |lines| > 0
    ensures var text := Join(lines, '\n');
      BlockOf(lines, Span(kind, 0, |lines| - 1)) == Block(kind, 0, |text|, |text|, text)
  {
    JoinLength(lines);
    assert Start(lines, |lines|) == Start(lines, |lines| - 1) + |lines[|lines| - 1]| + 1;
    assert Start(lines, 0) == 0;
    assert Cut(lines, Span(kind, 0, |lines| - 1)) == lines;
  }

  /** Rendering a block alone is rendering that block: for every text and every
      block of it, splitting the block's markdown gives one block of the same kind
      over the whole of it, except for the heading "---\n---", which alone is
      frontmatter. */
  lemma ResplitMarkdown(content: string, k: nat)
    requires k < |Blocks(content)|
    ensures var b := Blocks(content)[k]; var n := |b.markdown|;
      var kind := if b.kind == Heading && b.markdown == DASHES then Frontmatter else b.kind;
      Blocks(b.markdown) == [Block(kind, 0, n, n, b.markdown)]
  {
    var lines := SplitOn(content, '\n');
    JoinSplit(content, '\n');
    Resplit(lines, k);
    var b := Spans(lines)[k];
    CutIsText(lines, b);
    SingleBlock(Cut(lines, b), if ReadsAsFrontmatter(b, lines) then Frontmatter else b.kind);
  }

  // ------------------------------------------------------------ decorations

  /** How a stretch of the text is shown: as editable source, as a rendered
      widget, or not at all (the separators after an active block). */
  datatype Piece = Source(from: nat, to: nat) | Widget(from: nat, to: nat) | Hidden(from: nat, to: nat)

  datatype Range = Range(from: nat, to: nat)

  predicate IsActive(b: Block, active: Range) {
    b.from < active.to && active.from < b.sourceTo
  }

  function PiecesOf(b: Block, active: Range): seq<Piece> {
    if !IsActive(b, active) then [Widget(b.from, b.to)]
    else if b.sourceTo < b.to then [Source(b.from, b.sourceTo), Hidden(b.sourceTo, b.to)]
    else [Source(b.from, b.sourceTo)]
  }

  function Pieces(blocks: seq<Block>, active: Range): seq<Piece> {
    if blocks == [] then []
    else Pieces(blocks[..|blocks| - 1], active) + PiecesOf(blocks[|blocks| - 1], active)
  }

  /** Without an active block one widget shows the whole document. */
  function Shown(content: string, active: Option<Range>): seq<Piece> {
    match active
    case None => [Widget(0, |content|)]
    case Some(range) => Pieces(Blocks(content), range)
  }

  /** `buildDecorations`. */
  method BuildDecorations(cache: SplitCache, content: string, active: Option<Range>) returns (pieces: seq<Piece>)
    requires cache.Valid()
    modifies cache
    ensures cache.Valid() && pieces == Shown(content, active)
  {
    var blocks := cache.GetSplitBlocks(content);
    if active.None? {
      return [if |content| == 0 then Widget(0, 0) else Widget(0, |content|)];
    }
    pieces := Decorate(blocks, active.value);
  }

  /** Its loop over the blocks. */
  method Decorate(blocks: seq<Block>, active: Range) returns (pieces: seq<Piece>)
    ensures pieces == Pieces(blocks, active)
  {
    pieces := [];
    for i := 0 to |blocks|
      invariant pieces == Pieces(blocks[..i], active)
    {
      var block := blocks[i];
      ghost var before := pieces;
      if IsActive(block, active) {
        pieces := pieces + [Source(block.from, block.sourceTo)];
        if block.sourceTo < block.to {
          pieces := pieces + [Hidden(block.sourceTo, block.to)];
          Regroup(before, [Source(block.from, block.sourceTo)], [Hidden(block.sourceTo, block.to)]);
        }
      } else {
        pieces := pieces + [Widget(block.from, block.to)];
      }
      assert pieces == before + PiecesOf(block, active);
      assert blocks[..i + 1][..i] == blocks[..i];
    }
    assert blocks[..|blocks|] == blocks;
  }

  /** Non-empty pieces, one starting where the one before ends, from `a` to `b`. */
  predicate Chain(pieces: seq<Piece>, a: nat, b: nat) {
    if pieces == [] then a == b
    else
      var last := pieces[|pieces| - 1];
      last.from < last.to == b && Chain(pieces[..|pieces| - 1], a, last.from)
  }

  predicate Shows(p: Piece, position: nat) {
    p.from <= position < p.to
  }

  lemma {:induction false} ChainBounds(pieces: seq<Piece>, a: nat, b: nat)
    requires Chain(pieces, a, b)
    ensures a <= b && forall i :: 0 <= i < |pieces| ==> a <= pieces[i].from && pieces[i].to <= b
    decreases |pieces|
  {
    if pieces != [] {
      var n := |pieces| - 1;
      ChainBounds(pieces[..n], a, pieces[n].from);
      assert forall i :: 0 <= i < n ==> pieces[i] == pieces[..n][i];
    }
  }

  /** Piece `i` shows the position and no other piece does. */
  predicate ShownBy(pieces: seq<Piece>, position: nat, i: nat) {
    && i < |pieces| && Shows(pieces[i], position)
    && forall j :: 0 <= j < |pieces| && Shows(pieces[j], position) ==> j == i
  }

  ghost predicate ShownOnce(pieces: seq<Piece>, position: nat) {
    exists i: nat :: ShownBy(pieces, position, i)
  }

  /** Every position of a chain is in one piece and in no other. */
  lemma {:induction false} ChainShowsOnce(pieces: seq<Piece>, a: nat, b: nat, position: nat)
    requires Chain(pieces, a, b) && a <= position < b
    ensures ShownOnce(pieces, position)
    decreases |pieces|
  {
    var n := |pieces| - 1;
    ChainBounds(pieces[..n], a, pieces[n].from);
    assert forall i :: 0 <= i < n ==> pieces[i] == pieces[..n][i];
    if position < pieces[n].from {
      ChainShowsOnce(pieces[..n], a, pieces[n].from, position);
      var i: nat :| ShownBy(pieces[..n], position, i);
      assert ShownBy(pieces, position, i);
    } else {
      assert ShownBy(pieces, position, n);
    }
  }

  predicate Abut(blocks: seq<Block>) {
    && (forall k :: 0 <= k < |blocks| ==> blocks[k].from < blocks[k].sourceTo <= blocks[k].to)
    && forall k :: 0 < k < |blocks| ==> blocks[k - 1].to == blocks[k].from
  }

  lemma TilesAbut(blocks: seq<Block>, content: string)
    requires Tiles(blocks, content)
    ensures Abut(blocks)
  {
    forall k | 0 <= k < |blocks|
      ensures blocks[k].from < blocks[k].sourceTo <= blocks[k].to
      ensures k > 0 ==> blocks[k - 1].to == blocks[k].from
    {
      assert TilesAt(blocks, content, k);
      assert k > 0 ==> TilesAt(blocks, content, k - 1);
    }
  }

  lemma {:induction false} PiecesChain(blocks: seq<Block>, active: Range)
    requires blocks != [] && Abut(blocks)
    ensures Chain(Pieces(blocks, active), blocks[0].from, blocks[|blocks| - 1].to)
    decreases |blocks|
  {
    var n := |blocks| - 1;
    var before, a, b := Pieces(blocks[..n], active), blocks[0].from, blocks[n];
    if n > 0 {
      PiecesChain(blocks[..n], active);
      assert blocks[n - 1].to == b.from;
    }
    BlockChain(before, a, b, active);
  }

  lemma {:induction false} BlockChain(before: seq<Piece>, a: nat, b: Block, active: Range)
    requires Chain(before, a, b.from) && b.from < b.sourceTo <= b.to
    ensures Chain(before + PiecesOf(b, active), a, b.to)
  {
    var here := PiecesOf(b, active);
    ChainOneMore(before, a, b.from, here[0]);
    if |here| == 2 {
      ChainOneMore(before + [here[0]], a, b.sourceTo, here[1]);
      Regroup(before, [here[0]], [here[1]]);
      assert here == [here[0]] + [here[1]];
    } else {
      assert here == [here[0]];
    }
  }

  lemma {:induction false} ChainOneMore(pieces: seq<Piece>, a: nat, b: nat, next: Piece)
    requires Chain(pieces, a, b) && b == next.from < next.to
    ensures Chain(pieces + [next], a, next.to)
  {
    assert (pieces + [next])[..|pieces|] == pieces;
  }

  /** Every position from the first block on (from the start when no block is
      active) is shown exactly once: as source, inside one widget, or as a hidden
      separator. */
  lemma DecorationsShowOnce(content: string, active: Option<Range>, position: nat)
    requires position < |content|
    requires active.Some? ==> Blocks(content) != [] && Blocks(content)[0].from <= position
    ensures ShownOnce(Shown(content, active), position)
  {
    if active.None? {
      assert ShownBy(Shown(content, active), position, 0);
    } else {
      ActiveShowsOnce(content, active.value, position);
    }
  }

  lemma {:induction false} ActiveShowsOnce(content: string, active: Range, position: nat)
    requires Blocks(content) != [] && Blocks(content)[0].from <= position < |content|
    ensures ShownOnce(Pieces(Blocks(content), active), position)
  {
    var blocks := Blocks(content);
    BlocksTile(content);
    assert TilesAt(blocks, content, |blocks| - 1);
    TilesAbut(blocks, content);
    PiecesChain(blocks, active);
    ChainShowsOnce(Pieces(blocks, active), blocks[0].from, |content|, position);
  }

  // ------------------------------------------------------------ the block at a position

  /** `blockAtPosition`: the block whose range has the position, else the last. */
  method BlockAtPosition(cache: SplitCache, content: string, position: nat) returns (r: Option<Block>)
    requires cache.Valid()
    modifies cache
    ensures cache.Valid()
    ensures r == None <==> Blocks(content) == []
    ensures r.Some? ==> r.value in Blocks(content)
    ensures Blocks(content) != [] && Blocks(content)[0].from <= position < |content| ==>
      r.value.from <= position < r.value.to
    ensures Blocks(content) != [] && !(Blocks(content)[0].from <= position < |content|) ==>
      r.value == Blocks(content)[|Blocks(content)| - 1]
  {
    var blocks := cache.GetSplitBlocks(content);
    BlocksTile(content);
    r := FindBlock(blocks, content, position);
  }

  method FindBlock(blocks: seq<Block>, ghost content: string, position: nat) returns (r: Option<Block>)
    requires Tiles(blocks, content)
    ensures r == None <==> blocks == []
    ensures r.Some? ==> r.value in blocks
    ensures blocks != [] && blocks[0].from <= position < |content| ==>
      r.value.from <= position < r.value.to
    ensures blocks != [] && !(blocks[0].from <= position < |content|) ==>
      r.value == blocks[|blocks| - 1]
  {
    if blocks == [] {
      return None;
    }
    var i := 0;
    while i < |blocks|
      invariant 0 <= i <= |blocks|
      invariant blocks[0].from <= position && i > 0 ==> blocks[i - 1].to <= position
    {
      assert TilesAt(blocks, content, i);
      assert i > 0 ==> TilesAt(blocks, content, i - 1);
      FromIncreases(blocks, content, i);
      if blocks[i].from <= position < blocks[i].to {
        return Some(blocks[i]);
      }
      i := i + 1;
    }
    assert TilesAt(blocks, content, |blocks| - 1);
    return Some(blocks[|blocks| - 1]);
  }

  lemma {:induction false} FromIncreases(blocks: seq<Block>, content: string, i: nat)
    requires Tiles(blocks, content) && i < |blocks|
    ensures blocks[0].from <= blocks[i].from && blocks[i].to <= |content|
    decreases i
  {
    assert TilesAt(blocks, content, i);
    if i > 0 {
      FromIncreases(blocks, content, i - 1);
      assert TilesAt(blocks, content, i - 1);
    }
  }
}
